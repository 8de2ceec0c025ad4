/** Day 17 of 2023, "Clumsy Crucible": the least heat lost moving a crucible
    from the top-left block of the map to the bottom-right one, when after
    every straight run of minStep to maxStep blocks it must turn a quarter.
    The search is Dijkstra's: a priority queue of runs ordered by heat loss,
    and a status map settling each (block, heading) at the first heat popped
    for it. */
module Day2023_17 {
  import opened Common
  import opened Grid2023

  datatype Direction = N | S | E | W

  type Coordinate = (int, int)

  /** The map: each block's heat loss, one digit. */
  type HeatMap = map<Coordinate, nat>

  /** The `offsets` table. */
  function Offset(d: Direction): Coordinate
  {
    match d
    case N => (0, -1)
    case S => (0, 1)
    case E => (1, 0)
    case W => (-1, 0)
  }

  /** The `turns` table. */
  function Turns(d: Direction): seq<Direction>
  {
    match d
    case N => [E, W]
    case S => [E, W]
    case E => [S, N]
    case W => [S, N]
  }

  /** The crucible only turns a quarter: the two turns differ, and a
    * direction is a turn exactly when its offset is perpendicular to the
    * heading's (so neither straight on nor back). */
  lemma TurnsMeaning(d: Direction, t: Direction)
    ensures |Turns(d)| == 2 && Turns(d)[0] != Turns(d)[1]
    ensures t in Turns(d) <==> Offset(t).0 * Offset(d).0 + Offset(t).1 * Offset(d).1 == 0
  {
  }

  // ---------------------------------------------------------------------------
  // One straight run (addMoves)
  // ---------------------------------------------------------------------------

  /** `location` moved `k` blocks in direction `d`. */
  function Shift(location: Coordinate, d: Direction, k: int): Coordinate
  {
    (location.0 + k * Offset(d).0, location.1 + k * Offset(d).1)
  }

  /** The first `k` blocks straight ahead all lie on the map. */
  ghost predicate OnMap(blocks: HeatMap, location: Coordinate, d: Direction, k: int)
  {
    forall j :: 1 <= j <= k ==> Shift(location, d, j) in blocks
  }

  /** The heat lost entering the first `k` blocks straight ahead. */
  ghost function Loss(blocks: HeatMap, location: Coordinate, d: Direction, k: int): (r: nat)
    requires OnMap(blocks, location, d, k)
    decreases if k > 0 then k else 0
  {
    if k <= 0 then 0 else Loss(blocks, location, d, k - 1) + blocks[Shift(location, d, k)]
  }

  /** `k` copies of `d`. */
  function Repeat(d: Direction, k: int): seq<Direction>
    decreases if k > 0 then k else 0
  {
    if k <= 0 then [] else Repeat(d, k - 1) + [d]
  }

  /** A queue entry: where the crucible is, every heading it took, and the
    * heat lost so far. */
  datatype Entry = Entry(location: Coordinate, directions: seq<Direction>, heatLoss: int)

  /** The entry for a run of `s` blocks in direction `d`. */
  ghost function Ahead(blocks: HeatMap, location: Coordinate, directions: seq<Direction>, d: Direction,
                       heatLoss: int, s: int): Entry
    requires OnMap(blocks, location, d, s)
  {
    Entry(Shift(location, d, s), directions + Repeat(d, s), heatLoss + Loss(blocks, location, d, s))
  }

  /** The entry of a run stands heading along the run. */
  lemma AheadStanding(blocks: HeatMap, location: Coordinate, directions: seq<Direction>, d: Direction, heatLoss: int, s: int)
    requires 1 <= s && OnMap(blocks, location, d, s)
    ensures var e := Ahead(blocks, location, directions, d, heatLoss, s);
      e.directions != [] && e.directions[|e.directions| - 1] == d
  {
    assert Repeat(d, s) == Repeat(d, s - 1) + [d];
  }

  /** The entries `addMoves` pushes for steps 1 to `k`: one per step of at
    * least `minStep`, as long as the blocks entered stay on the map. */
  ghost function Moves(blocks: HeatMap, location: Coordinate, directions: seq<Direction>, d: Direction,
                       heatLoss: int, minStep: int, k: int): seq<Entry>
    decreases if k > 0 then k else 0
  {
    if k <= 0 then []
    else
      Moves(blocks, location, directions, d, heatLoss, minStep, k - 1)
      + if OnMap(blocks, location, d, k) && k >= minStep then [Ahead(blocks, location, directions, d, heatLoss, k)] else []
  }

  /** Every pushed entry is a run of between `minStep` and `k` blocks, all
    * on the map, whose heat loss adds exactly the blocks entered. */
  lemma {:induction false} MovesSound(blocks: HeatMap, location: Coordinate, directions: seq<Direction>, d: Direction,
                                      heatLoss: int, minStep: int, k: int, e: Entry)
    requires e in Moves(blocks, location, directions, d, heatLoss, minStep, k)
    ensures exists s :: 1 <= s <= k && minStep <= s && OnMap(blocks, location, d, s)
                        && e == Ahead(blocks, location, directions, d, heatLoss, s)
    decreases if k > 0 then k else 0
  {
    if e !in Moves(blocks, location, directions, d, heatLoss, minStep, k - 1) {
      assert OnMap(blocks, location, d, k) && k >= minStep;
    } else {
      MovesSound(blocks, location, directions, d, heatLoss, minStep, k - 1, e);
    }
  }

  /** Every run of between `minStep` and `k` blocks on the map is pushed. */
  lemma {:induction false} MovesComplete(blocks: HeatMap, location: Coordinate, directions: seq<Direction>, d: Direction,
                                         heatLoss: int, minStep: int, k: int, s: int)
    requires 1 <= s <= k && minStep <= s && OnMap(blocks, location, d, s)
    ensures Ahead(blocks, location, directions, d, heatLoss, s) in Moves(blocks, location, directions, d, heatLoss, minStep, k)
    decreases k
  {
    if s < k {
      MovesComplete(blocks, location, directions, d, heatLoss, minStep, k - 1, s);
    }
  }

  /** Once a block ahead is off the map, no further step pushes anything. */
  lemma {:induction false} MovesStop(blocks: HeatMap, location: Coordinate, directions: seq<Direction>, d: Direction,
                                     heatLoss: int, minStep: int, s: int, k: int)
    requires 1 <= s && Shift(location, d, s) !in blocks && s - 1 <= k
    ensures Moves(blocks, location, directions, d, heatLoss, minStep, k) == Moves(blocks, location, directions, d, heatLoss, minStep, s - 1)
    decreases k
  {
    if k > s - 1 {
      MovesStop(blocks, location, directions, d, heatLoss, minStep, s, k - 1);
      assert !OnMap(blocks, location, d, k);
    }
  }

  /** `addMoves`: push the runs of `minStep` to `maxStep` blocks straight
    * ahead in direction `next`, stopping at the edge of the map. */
  method AddMoves(blocks: HeatMap, queue: seq<Entry>, location: Coordinate, directions: seq<Direction>,
                  next: Direction, heatLoss: int, minStep: int, maxStep: int) returns (queue': seq<Entry>)
    ensures queue' == queue + Moves(blocks, location, directions, next, heatLoss, minStep, maxStep)
  {
    queue' := queue;
    var move := Offset(next);
    var newLocation := location;
    var newHeatLoss := heatLoss;
    var newDirections := directions;
    var step := 1;
    while step <= maxStep
      invariant 1 <= step && (step <= maxStep + 1 || step == 1)
      invariant OnMap(blocks, location, next, step - 1)
      invariant newLocation == Shift(location, next, step - 1)
      invariant newHeatLoss == heatLoss + Loss(blocks, location, next, step - 1)
      invariant newDirections == directions + Repeat(next, step - 1)
      invariant queue' == queue + Moves(blocks, location, directions, next, heatLoss, minStep, step - 1)
    {
      newLocation := (newLocation.0 + move.0, newLocation.1 + move.1);
      if newLocation !in blocks {
        MovesStop(blocks, location, directions, next, heatLoss, minStep, step, maxStep);
        return;
      }
      newHeatLoss := newHeatLoss + blocks[newLocation];
      newDirections := newDirections + [next];
      if step >= minStep {
        queue' := queue' + [Entry(newLocation, newDirections, newHeatLoss)];
      }
      step := step + 1;
    }
    if maxStep > 0 {
      assert step - 1 == maxStep;
    }
  }

  // ---------------------------------------------------------------------------
  // What the search looks for: routes of the crucible
  // ---------------------------------------------------------------------------

  /** The search problem: the map, the run lengths, and the start. */
  datatype Plan = Plan(blocks: HeatMap, minStep: int, maxStep: int, start: Coordinate)

  /** The crucible at the end of a straight run: where it is, its heading,
    * and the heat lost so far. */
  datatype Crucible = Crucible(location: Coordinate, heading: Direction, heatLoss: int)

  /** A straight run of `minStep` to `maxStep` blocks in direction `d`, all
    * on the map, from `location` with `heatLoss` lost, ends in `c`. */
  ghost predicate Leg(plan: Plan, location: Coordinate, heatLoss: int, d: Direction, c: Crucible)
  {
    exists s :: 1 <= s && plan.minStep <= s <= plan.maxStep && OnMap(plan.blocks, location, d, s)
                && c == Crucible(Shift(location, d, s), d, heatLoss + Loss(plan.blocks, location, d, s))
  }

  /** The first run leaves the start heading east or south. */
  ghost predicate Launch(plan: Plan, c: Crucible)
  {
    (c.heading == E || c.heading == S) && Leg(plan, plan.start, 0, c.heading, c)
  }

  /** A quarter turn and a straight run lead from `c` to `c'`. */
  ghost predicate Turn(plan: Plan, c: Crucible, c': Crucible)
  {
    c'.heading in Turns(c.heading) && Leg(plan, c.location, c.heatLoss, c'.heading, c')
  }

  /** A route: a launch followed by turns. */
  ghost predicate Route(plan: Plan, w: seq<Crucible>)
  {
    |w| > 0 && Launch(plan, w[0]) && forall i :: 0 <= i < |w| - 1 ==> Turn(plan, w[i], w[i + 1])
  }

  /** Some route ends in `c`. */
  ghost predicate Reached(plan: Plan, c: Crucible)
  {
    exists w :: Route(plan, w) && w[|w| - 1] == c
  }

  lemma RouteExtend(plan: Plan, w: seq<Crucible>, c: Crucible)
    requires Route(plan, w) && Turn(plan, w[|w| - 1], c)
    ensures Route(plan, w + [c])
  {
    var w' := w + [c];
    forall i | 0 <= i < |w'| - 1
      ensures Turn(plan, w'[i], w'[i + 1])
    {
      if i < |w| - 1 {
        assert w'[i] == w[i] && w'[i + 1] == w[i + 1];
      }
    }
  }

  /** A state following a reached one is reached. */
  lemma ReachedTurn(plan: Plan, c: Crucible, c': Crucible)
    requires Reached(plan, c) && Turn(plan, c, c')
    ensures Reached(plan, c')
  {
    var w :| Route(plan, w) && w[|w| - 1] == c;
    RouteExtend(plan, w, c');
    assert (w + [c'])[|w + [c']| - 1] == c';
  }

  // ---------------------------------------------------------------------------
  // The search state (findPath's queue and status map)
  // ---------------------------------------------------------------------------

  /** A status key: a block and the last heading, as `computeHash` joins
    * them. */
  type Key = (Coordinate, Direction)

  /** A settled (block, heading): the headings taken and the heat lost. */
  datatype Status = Status(directions: seq<Direction>, heatLoss: int)

  /** The crucible state an entry stands for. */
  function Standing(e: Entry): Crucible
    requires e.directions != []
  {
    Crucible(e.location, e.directions[|e.directions| - 1], e.heatLoss)
  }

  /** The entries an entry is expanded into once it settles: the runs after
    * each quarter turn. */
  ghost function Successors(plan: Plan, location: Coordinate, directions: seq<Direction>, t: Direction, heatLoss: int): seq<Entry>
  {
    Moves(plan.blocks, location, directions, t, heatLoss, plan.minStep, plan.maxStep)
  }

  /** An entry is still queued, or its (block, heading) settled at no more
    * heat. */
  ghost predicate Done(queue: seq<Entry>, status: map<Key, Status>, e: Entry)
  {
    e in queue
    || (e.directions != [] && (e.location, e.directions[|e.directions| - 1]) in status
        && status[(e.location, e.directions[|e.directions| - 1])].heatLoss <= e.heatLoss)
  }

  /** Every run after turning `t` from the settled `k` is done. */
  ghost predicate Expanded(plan: Plan, queue: seq<Entry>, status: map<Key, Status>, k: Key, t: Direction)
    requires k in status
  {
    forall e :: e in Successors(plan, k.0, status[k].directions, t, status[k].heatLoss) ==> Done(queue, status, e)
  }

  /** Every first run from the start is done. */
  ghost predicate Launched(plan: Plan, queue: seq<Entry>, status: map<Key, Status>)
  {
    forall d, e :: (d == E || d == S) && e in Moves(plan.blocks, plan.start, [], d, 0, plan.minStep, plan.maxStep)
      ==> Done(queue, status, e)
  }

  /** Every queued entry is a reached run ending on the map. */
  ghost predicate QueueReached(plan: Plan, queue: seq<Entry>)
  {
    forall i :: 0 <= i < |queue| ==>
      queue[i].directions != [] && queue[i].location in plan.blocks && Reached(plan, Standing(queue[i]))
  }

  /** Every settled (block, heading) is on the map and reached at its heat. */
  ghost predicate StatusReached(plan: Plan, status: map<Key, Status>)
  {
    forall k :: k in status ==> k.0 in plan.blocks && Reached(plan, Crucible(k.0, k.1, status[k].heatLoss))
  }

  /** No settled heat exceeds a queued one. */
  ghost predicate Ordered(queue: seq<Entry>, status: map<Key, Status>)
  {
    forall k, i :: k in status && 0 <= i < |queue| ==> status[k].heatLoss <= queue[i].heatLoss
  }

  /** What holds between two pops, but for the expansion of settled keys. */
  ghost predicate Sound(plan: Plan, queue: seq<Entry>, status: map<Key, Status>)
  {
    QueueReached(plan, queue) && StatusReached(plan, status) && Ordered(queue, status) && Launched(plan, queue, status)
  }

  /** What holds between two pops. */
  ghost predicate Search(plan: Plan, queue: seq<Entry>, status: map<Key, Status>)
  {
    && Sound(plan, queue, status)
    && forall k, t :: k in status && t in Turns(k.1) ==> Expanded(plan, queue, status, k, t)
  }

  /** The (block, heading) pairs of the map not yet settled. */
  ghost function Unsettled(blocks: HeatMap, status: map<Key, Status>): set<Key>
  {
    set p, d | p in blocks && d in [N, S, E, W] && (p, d) !in status :: (p, d)
  }

  /** The queued minimum: `queue.pop()` of a priority queue ordered by heat
    * loss. */
  method MinIndex(queue: seq<Entry>) returns (i: nat)
    requires queue != []
    ensures i < |queue| && forall j :: 0 <= j < |queue| ==> queue[i].heatLoss <= queue[j].heatLoss
  {
    i := 0;
    for j := 1 to |queue|
      invariant i < |queue| && forall m :: 0 <= m < j ==> queue[i].heatLoss <= queue[m].heatLoss
    {
      if queue[j].heatLoss < queue[i].heatLoss {
        i := j;
      }
    }
  }

  /** Removing the minimum keeps every done entry done, whether its key was
    * settled already or settles now at the popped heat. */
  lemma PopDone(queue: seq<Entry>, status: map<Key, Status>, i: nat, status': map<Key, Status>, e: Entry)
    requires i < |queue| && queue[i].directions != [] && Ordered(queue, status)
    requires var x := queue[i]; var k := (x.location, x.directions[|x.directions| - 1]);
      status' == if k in status then status else status[k := Status(x.directions, x.heatLoss)]
    requires Done(queue, status, e)
    ensures Done(queue[..i] + queue[i + 1..], status', e)
  {
    var rest := queue[..i] + queue[i + 1..];
    if e in queue && e != queue[i] {
      var j :| 0 <= j < |queue| && queue[j] == e;
      if j < i {
        assert rest[j] == e;
      } else {
        assert rest[j - 1] == e;
      }
    }
  }

  lemma PopSound(plan: Plan, queue: seq<Entry>, status: map<Key, Status>, i: nat, status': map<Key, Status>)
    requires Sound(plan, queue, status) && i < |queue| && forall j :: 0 <= j < |queue| ==> queue[i].heatLoss <= queue[j].heatLoss
    requires var x := queue[i]; var k := (x.location, x.directions[|x.directions| - 1]);
      status' == if k in status then status else status[k := Status(x.directions, x.heatLoss)]
    ensures Sound(plan, queue[..i] + queue[i + 1..], status')
  {
    PopReached(plan, queue, status, i, status');
    PopOrdered(queue, status, i, status');
    var rest := queue[..i] + queue[i + 1..];
    assert Launched(plan, rest, status') by {
      forall d, e | (d == E || d == S) && e in Moves(plan.blocks, plan.start, [], d, 0, plan.minStep, plan.maxStep)
        ensures Done(rest, status', e)
      {
        PopDone(queue, status, i, status', e);
      }
    }
  }

  /** After a pop the queued and settled states are still reached. */
  lemma PopReached(plan: Plan, queue: seq<Entry>, status: map<Key, Status>, i: nat, status': map<Key, Status>)
    requires QueueReached(plan, queue) && StatusReached(plan, status) && i < |queue|
    requires var x := queue[i]; var k := (x.location, x.directions[|x.directions| - 1]);
      status' == if k in status then status else status[k := Status(x.directions, x.heatLoss)]
    ensures QueueReached(plan, queue[..i] + queue[i + 1..]) && StatusReached(plan, status')
  {
    var rest := queue[..i] + queue[i + 1..];
    var x := queue[i];
    var k := (x.location, x.directions[|x.directions| - 1]);
    forall j | 0 <= j < |rest|
      ensures rest[j].directions != [] && rest[j].location in plan.blocks && Reached(plan, Standing(rest[j]))
    {
      assert rest[j] == if j < i then queue[j] else queue[j + 1];
    }
    assert Standing(x) == Crucible(k.0, k.1, x.heatLoss);
  }

  /** Settling the minimum keeps settled heats below queued ones. */
  lemma PopOrdered(queue: seq<Entry>, status: map<Key, Status>, i: nat, status': map<Key, Status>)
    requires Ordered(queue, status) && i < |queue| && queue[i].directions != []
    requires forall j :: 0 <= j < |queue| ==> queue[i].heatLoss <= queue[j].heatLoss
    requires var x := queue[i]; var k := (x.location, x.directions[|x.directions| - 1]);
      status' == if k in status then status else status[k := Status(x.directions, x.heatLoss)]
    ensures Ordered(queue[..i] + queue[i + 1..], status')
  {
    var rest := queue[..i] + queue[i + 1..];
    forall k', j | k' in status' && 0 <= j < |rest|
      ensures status'[k'].heatLoss <= rest[j].heatLoss
    {
      assert rest[j] == if j < i then queue[j] else queue[j + 1];
    }
  }

  /** The settled keys stay expanded after a pop. */
  lemma PopExpanded(plan: Plan, queue: seq<Entry>, status: map<Key, Status>, i: nat, status': map<Key, Status>, k: Key, t: Direction)
    requires i < |queue| && queue[i].directions != [] && Ordered(queue, status)
    requires var x := queue[i]; var k := (x.location, x.directions[|x.directions| - 1]);
      status' == if k in status then status else status[k := Status(x.directions, x.heatLoss)]
    requires k in status && Expanded(plan, queue, status, k, t)
    ensures k in status' && Expanded(plan, queue[..i] + queue[i + 1..], status', k, t)
  {
    forall e | e in Successors(plan, k.0, status'[k].directions, t, status'[k].heatLoss)
      ensures Done(queue[..i] + queue[i + 1..], status', e)
    {
      PopDone(queue, status, i, status', e);
    }
  }

  /** Appending to the queue keeps every done entry done. */
  lemma PushExpanded(plan: Plan, queue: seq<Entry>, more: seq<Entry>, status: map<Key, Status>, k: Key, t: Direction)
    requires k in status && Expanded(plan, queue, status, k, t)
    ensures Expanded(plan, queue + more, status, k, t)
  {
    forall e | e in Successors(plan, k.0, status[k].directions, t, status[k].heatLoss)
      ensures Done(queue + more, status, e)
    {
      assert e in queue ==> e in queue + more;
    }
  }

  /** Pushing the runs after a quarter turn from a reached, just settled
    * state keeps the search sound, and expands that turn. */
  lemma PushSound(plan: Plan, queue: seq<Entry>, status: map<Key, Status>, k: Key, t: Direction)
    requires Sound(plan, queue, status) && k in status && t in Turns(k.1)
    requires forall k' :: k' in status ==> status[k'].heatLoss <= status[k].heatLoss
    ensures var more := Successors(plan, k.0, status[k].directions, t, status[k].heatLoss);
      Sound(plan, queue + more, status) && Expanded(plan, queue + more, status, k, t)
  {
    var h := status[k].heatLoss;
    var more := Successors(plan, k.0, status[k].directions, t, h);
    var queue' := queue + more;
    forall j | 0 <= j < |more|
      ensures more[j].directions != [] && more[j].location in plan.blocks && Reached(plan, Standing(more[j]))
      ensures h <= more[j].heatLoss
    {
      PushedReached(plan, k, status[k].directions, t, h, more[j]);
    }
    assert QueueReached(plan, queue') by {
      forall j | 0 <= j < |queue'|
        ensures queue'[j].directions != [] && queue'[j].location in plan.blocks && Reached(plan, Standing(queue'[j]))
      {
        assert queue'[j] == if j < |queue| then queue[j] else more[j - |queue|];
      }
    }
    assert Ordered(queue', status) by {
      forall k', j | k' in status && 0 <= j < |queue'|
        ensures status[k'].heatLoss <= queue'[j].heatLoss
      {
        assert queue'[j] == if j < |queue| then queue[j] else more[j - |queue|];
      }
    }
    assert Launched(plan, queue', status) by {
      forall d, e | (d == E || d == S) && e in Moves(plan.blocks, plan.start, [], d, 0, plan.minStep, plan.maxStep)
        ensures Done(queue', status, e)
      {
        assert Done(queue, status, e);
        if e in queue {
          var j :| 0 <= j < |queue| && queue[j] == e;
          assert queue'[j] == e;
        }
      }
    }
    assert Expanded(plan, queue', status, k, t) by {
      forall e | e in more
        ensures Done(queue', status, e)
      {
        var j :| 0 <= j < |more| && more[j] == e;
        assert queue'[|queue| + j] == e;
      }
    }
  }

  /** A run pushed after a quarter turn from a reached state is reached,
    * ends on the map, and loses no less heat. */
  lemma PushedReached(plan: Plan, k: Key, directions: seq<Direction>, t: Direction, h: int, e: Entry)
    requires Reached(plan, Crucible(k.0, k.1, h)) && t in Turns(k.1)
    requires e in Successors(plan, k.0, directions, t, h)
    ensures e.directions != [] && e.location in plan.blocks && Reached(plan, Standing(e)) && h <= e.heatLoss
  {
    MovesSound(plan.blocks, k.0, directions, t, h, plan.minStep, plan.maxStep, e);
    var s :| 1 <= s <= plan.maxStep && plan.minStep <= s && OnMap(plan.blocks, k.0, t, s)
             && e == Ahead(plan.blocks, k.0, directions, t, h, s);
    AheadStanding(plan.blocks, k.0, directions, t, h, s);
    assert Leg(plan, k.0, h, t, Standing(e));
    ReachedTurn(plan, Crucible(k.0, k.1, h), Standing(e));
  }

  /** The body of the `while (!queue.isEmpty())` loop: pop the entry losing
    * least heat; unless its (block, heading) is settled already, settle it
    * and push the runs after each quarter turn. */
  method Visit(plan: Plan, queue: seq<Entry>, status: map<Key, Status>) returns (queue': seq<Entry>, status': map<Key, Status>)
    requires Search(plan, queue, status) && queue != []
    ensures Search(plan, queue', status')
    ensures Unsettled(plan.blocks, status') < Unsettled(plan.blocks, status)
            || (status' == status && |queue'| < |queue|)
  {
    var i := MinIndex(queue);
    var entry := queue[i];
    var lastDirection := entry.directions[|entry.directions| - 1];
    var key := (entry.location, lastDirection);
    status' := if key in status then status else status[key := Status(entry.directions, entry.heatLoss)];
    queue' := queue[..i] + queue[i + 1..];
    PopSearch(plan, queue, status, i, status');
    if key in status {
      return;
    }
    UnsettledShrinks(plan.blocks, status, key, status'[key]);
    queue' := Expand(plan, queue', status', key);
  }

  /** Popping the minimum and settling its (block, heading) unless settled
    * already keeps the search sound and every settled key but the new one
    * expanded; the new one holds the most heat settled. */
  lemma PopSearch(plan: Plan, queue: seq<Entry>, status: map<Key, Status>, i: nat, status': map<Key, Status>)
    requires Search(plan, queue, status) && i < |queue| && forall j :: 0 <= j < |queue| ==> queue[i].heatLoss <= queue[j].heatLoss
    requires var x := queue[i]; var k := (x.location, x.directions[|x.directions| - 1]);
      status' == if k in status then status else status[k := Status(x.directions, x.heatLoss)]
    ensures var x := queue[i]; var key := (x.location, x.directions[|x.directions| - 1]);
      && Sound(plan, queue[..i] + queue[i + 1..], status')
      && (forall k, t :: k in status && t in Turns(k.1) ==> k in status' && Expanded(plan, queue[..i] + queue[i + 1..], status', k, t))
      && (key !in status ==> key.0 in plan.blocks && forall k :: k in status' ==> status'[k].heatLoss <= status'[key].heatLoss)
  {
    PopSound(plan, queue, status, i, status');
    forall k, t | k in status && t in Turns(k.1)
      ensures k in status' && Expanded(plan, queue[..i] + queue[i + 1..], status', k, t)
    {
      PopExpanded(plan, queue, status, i, status', k, t);
    }
  }

  /** Settling a (block, heading) of the map leaves fewer unsettled. */
  lemma UnsettledShrinks(blocks: HeatMap, status: map<Key, Status>, key: Key, v: Status)
    requires key.0 in blocks && key !in status
    ensures Unsettled(blocks, status[key := v]) < Unsettled(blocks, status)
  {
    assert key.1 in [N, S, E, W] by {
      if key.1.N? {} else if key.1.S? {} else if key.1.E? {} else {}
    }
    assert key in Unsettled(blocks, status);
  }

  /** The `for (const nextDirection of nextDirections)` loop: push the runs
    * after each quarter turn from the (block, heading) just settled. */
  method Expand(plan: Plan, queue: seq<Entry>, status: map<Key, Status>, key: Key) returns (queue': seq<Entry>)
    requires Sound(plan, queue, status) && key in status
    requires forall k :: k in status ==> status[k].heatLoss <= status[key].heatLoss
    requires forall k, t :: k in status && t in Turns(k.1) && k != key ==> Expanded(plan, queue, status, k, t)
    ensures Search(plan, queue', status)
  {
    queue' := queue;
    var nextDirections := Turns(key.1);
    for j := 0 to |nextDirections|
      invariant Sound(plan, queue', status)
      invariant forall k, t :: k in status && t in Turns(k.1) && k != key ==> Expanded(plan, queue', status, k, t)
      invariant forall m :: 0 <= m < j ==> Expanded(plan, queue', status, key, nextDirections[m])
    {
      var before := queue';
      queue' := AddMoves(plan.blocks, queue', key.0, status[key].directions, nextDirections[j], status[key].heatLoss,
                         plan.minStep, plan.maxStep);
      PushSound(plan, before, status, key, nextDirections[j]);
      var more := Successors(plan, key.0, status[key].directions, nextDirections[j], status[key].heatLoss);
      forall k, t | k in status && t in Turns(k.1) && k != key
        ensures Expanded(plan, queue', status, k, t)
      {
        PushExpanded(plan, before, more, status, k, t);
      }
      forall m | 0 <= m < j
        ensures Expanded(plan, queue', status, key, nextDirections[m])
      {
        PushExpanded(plan, before, more, status, key, nextDirections[m]);
      }
    }
  }

  /** With the queue empty, a launch's end is settled at no more heat than
    * the launch loses. */
  lemma LaunchSettled(plan: Plan, status: map<Key, Status>, c: Crucible)
    requires Search(plan, [], status) && Launch(plan, c)
    ensures (c.location, c.heading) in status && status[(c.location, c.heading)].heatLoss <= c.heatLoss
  {
    var s :| 1 <= s && plan.minStep <= s <= plan.maxStep && OnMap(plan.blocks, plan.start, c.heading, s)
             && c == Crucible(Shift(plan.start, c.heading, s), c.heading, 0 + Loss(plan.blocks, plan.start, c.heading, s));
    MovesComplete(plan.blocks, plan.start, [], c.heading, 0, plan.minStep, plan.maxStep, s);
    var e := Ahead(plan.blocks, plan.start, [], c.heading, 0, s);
    assert Repeat(c.heading, s) == Repeat(c.heading, s - 1) + [c.heading];
    assert Done([], status, e);
  }

  /** With the queue empty, a turn from a state settled at no more heat
    * ends in a state settled at no more heat. */
  lemma TurnSettled(plan: Plan, status: map<Key, Status>, b: Crucible, c: Crucible)
    requires Search(plan, [], status) && Turn(plan, b, c)
    requires (b.location, b.heading) in status && status[(b.location, b.heading)].heatLoss <= b.heatLoss
    ensures (c.location, c.heading) in status && status[(c.location, c.heading)].heatLoss <= c.heatLoss
  {
    var k := (b.location, b.heading);
    var s :| 1 <= s && plan.minStep <= s <= plan.maxStep && OnMap(plan.blocks, b.location, c.heading, s)
             && c == Crucible(Shift(b.location, c.heading, s), c.heading, b.heatLoss + Loss(plan.blocks, b.location, c.heading, s));
    MovesComplete(plan.blocks, b.location, status[k].directions, c.heading, status[k].heatLoss, plan.minStep, plan.maxStep, s);
    var e := Ahead(plan.blocks, b.location, status[k].directions, c.heading, status[k].heatLoss, s);
    assert Expanded(plan, [], status, k, c.heading);
    assert Repeat(c.heading, s) == Repeat(c.heading, s - 1) + [c.heading];
    assert Done([], status, e);
  }

  /** With the queue empty, every route's end is settled at no more heat
    * than the route loses. */
  lemma {:induction false} SettledRoute(plan: Plan, status: map<Key, Status>, w: seq<Crucible>)
    requires Search(plan, [], status) && Route(plan, w)
    ensures var c := w[|w| - 1]; (c.location, c.heading) in status && status[(c.location, c.heading)].heatLoss <= c.heatLoss
  {
    var n := |w| - 1;
    if n == 0 {
      LaunchSettled(plan, status, w[0]);
    } else {
      var v := w[..n];
      assert Route(plan, v) by {
        forall i | 0 <= i < |v| - 1
          ensures Turn(plan, v[i], v[i + 1])
        {
          assert v[i] == w[i] && v[i + 1] == w[i + 1];
        }
      }
      SettledRoute(plan, status, v);
      assert v[|v| - 1] == w[n - 1];
      TurnSettled(plan, status, w[n - 1], w[n]);
    }
  }

  /** `minBy` over optional heats: the least of those present, the first of
    * equals, and none when none is present. */
  function MinBy(options: seq<Option<int>>): (r: Option<int>)
    ensures r.None? <==> forall i :: 0 <= i < |options| ==> options[i].None?
    ensures r.Some? ==> Some(r.value) in options
    ensures r.Some? ==> forall i :: 0 <= i < |options| && options[i].Some? ==> r.value <= options[i].value
  {
    if options == [] then None
    else
      var rest := MinBy(options[1..]);
      assert forall i :: 1 <= i < |options| ==> options[i] == options[1..][i - 1];
      if options[0].None? then rest
      else if rest.Some? && rest.value < options[0].value then rest
      else options[0]
  }

  /** The status heat of a (block, heading), if settled. */
  function Lookup(status: map<Key, Status>, k: Key): Option<int>
  {
    if k in status then Some(status[k].heatLoss) else None
  }

  /** A route from the top-left block ends on the bottom-right one heading
    * south or east, with `heatLoss` lost. */
  ghost predicate Finishes(blocks: HeatMap, minStep: int, maxStep: int, box: Box, heatLoss: int)
  {
    exists w: seq<Crucible> :: Route(Plan(blocks, minStep, maxStep, (box.xmin, box.ymin)), w)
      && w[|w| - 1].location == (box.xmax, box.ymax)
      && (w[|w| - 1].heading == S || w[|w| - 1].heading == E)
      && w[|w| - 1].heatLoss == heatLoss
  }

  /** `findPath`: fails on an empty map (the range assertion) or when no
    * route reaches the bottom-right block heading south or east (the
    * assertion on `endStatus`); otherwise the least heat any such route
    * loses. */
  method FindPath(blocks: HeatMap, minStep: int, maxStep: int) returns (r: Result<int>)
    ensures blocks == map[] ==> r.Failure?
    ensures forall box :: Bounding(box, blocks.Keys) ==>
      && (r.Success? <==> exists h :: Finishes(blocks, minStep, maxStep, box, h))
      && (r.Success? ==> Finishes(blocks, minStep, maxStep, box, r.value))
      && (r.Success? ==> forall h :: Finishes(blocks, minStep, maxStep, box, h) ==> r.value <= h)
  {
    var bounds := Extents(blocks);
    if bounds.None? {
      return Failure("the map has no range");
    }
    var box := bounds.value;
    var start := (box.xmin, box.ymin);
    var end := (box.xmax, box.ymax);
    var plan := Plan(blocks, minStep, maxStep, start);
    var queue := AddMoves(blocks, [], start, [], E, 0, minStep, maxStep);
    queue := AddMoves(blocks, queue, start, [], S, 0, minStep, maxStep);
    var status: map<Key, Status> := map[];
    LaunchSearch(plan, queue);
    while queue != []
      invariant Search(plan, queue, status)
      decreases Unsettled(blocks, status), |queue|
    {
      queue, status := Visit(plan, queue, status);
    }
    var endStatus := MinBy([Lookup(status, (end, S)), Lookup(status, (end, E))]);
    Answer(plan, status, box, endStatus);
    if endStatus.None? {
      return Failure("no route reaches the end");
    }
    return Success(endStatus.value);
  }

  /** The first two `addMoves` calls leave the search in its invariant. */
  lemma LaunchSearch(plan: Plan, queue: seq<Entry>)
    requires queue == Moves(plan.blocks, plan.start, [], E, 0, plan.minStep, plan.maxStep)
                      + Moves(plan.blocks, plan.start, [], S, 0, plan.minStep, plan.maxStep)
    ensures Search(plan, queue, map[])
  {
    forall j | 0 <= j < |queue|
      ensures queue[j].directions != [] && queue[j].location in plan.blocks && Reached(plan, Standing(queue[j]))
    {
      var d := if queue[j] in Moves(plan.blocks, plan.start, [], E, 0, plan.minStep, plan.maxStep) then E else S;
      MovesSound(plan.blocks, plan.start, [], d, 0, plan.minStep, plan.maxStep, queue[j]);
      var s :| 1 <= s <= plan.maxStep && plan.minStep <= s && OnMap(plan.blocks, plan.start, d, s)
               && queue[j] == Ahead(plan.blocks, plan.start, [], d, 0, s);
      assert Repeat(d, s) == Repeat(d, s - 1) + [d];
      assert Route(plan, [Standing(queue[j])]);
    }
  }

  /** The answer read off the settled status once the queue is empty. */
  lemma Answer(plan: Plan, status: map<Key, Status>, box: Box, endStatus: Option<int>)
    requires Search(plan, [], status) && plan.start == (box.xmin, box.ymin)
    requires endStatus == MinBy([Lookup(status, ((box.xmax, box.ymax), S)), Lookup(status, ((box.xmax, box.ymax), E))])
    requires Bounding(box, plan.blocks.Keys)
    ensures forall box' :: Bounding(box', plan.blocks.Keys) ==>
      && (endStatus.Some? <==> exists h :: Finishes(plan.blocks, plan.minStep, plan.maxStep, box', h))
      && (endStatus.Some? ==> Finishes(plan.blocks, plan.minStep, plan.maxStep, box', endStatus.value))
      && (endStatus.Some? ==> forall h :: Finishes(plan.blocks, plan.minStep, plan.maxStep, box', h) ==> endStatus.value <= h)
  {
    var end := (box.xmax, box.ymax);
    forall box' | Bounding(box', plan.blocks.Keys)
      ensures box' == box
    {
      BoundingUnique(box, box', plan.blocks.Keys);
    }
    assert plan == Plan(plan.blocks, plan.minStep, plan.maxStep, (box.xmin, box.ymin));
    forall h | Finishes(plan.blocks, plan.minStep, plan.maxStep, box, h)
      ensures endStatus.Some? && endStatus.value <= h
    {
      var w: seq<Crucible> :| Route(plan, w) && w[|w| - 1].location == end
        && (w[|w| - 1].heading == S || w[|w| - 1].heading == E) && w[|w| - 1].heatLoss == h;
      SettledRoute(plan, status, w);
    }
    if endStatus.Some? {
      var d := if Lookup(status, (end, S)) == endStatus then S else E;
      assert Reached(plan, Crucible(end, d, endStatus.value));
      var w :| Route(plan, w) && w[|w| - 1] == Crucible(end, d, endStatus.value);
      assert Finishes(plan.blocks, plan.minStep, plan.maxStep, box, endStatus.value);
    }
  }

  /** Part 1: runs of one to three blocks. */
  method Part1(blocks: HeatMap) returns (r: Result<int>)
    ensures blocks == map[] ==> r.Failure?
    ensures forall box :: Bounding(box, blocks.Keys) ==>
      && (r.Success? <==> exists h :: Finishes(blocks, 1, 3, box, h))
      && (r.Success? ==> Finishes(blocks, 1, 3, box, r.value) && forall h :: Finishes(blocks, 1, 3, box, h) ==> r.value <= h)
  {
    r := FindPath(blocks, 1, 3);
  }

  /** Part 2: runs of four to ten blocks. */
  method Part2(blocks: HeatMap) returns (r: Result<int>)
    ensures blocks == map[] ==> r.Failure?
    ensures forall box :: Bounding(box, blocks.Keys) ==>
      && (r.Success? <==> exists h :: Finishes(blocks, 4, 10, box, h))
      && (r.Success? ==> Finishes(blocks, 4, 10, box, r.value) && forall h :: Finishes(blocks, 4, 10, box, h) ==> r.value <= h)
  {
    r := FindPath(blocks, 4, 10);
  }
}
