// Advent of Code 2022, day 24: crossing a valley of blizzards. Every wind
// moves one cell a minute and wraps around the valley's interior; a
// bounded search finds the earliest arrival, with a bound that grows until
// a way is found.

module Day2022_24 {
  import opened Common

  datatype Coord = Coord(x: int, y: int)

  /** The wind signs `^`, `>`, `v` and `<`. */
  datatype Dir = Up | Right | Down | Left

  function Offset(d: Dir): Coord
  {
    match d
    case Up => Coord(0, -1)
    case Right => Coord(1, 0)
    case Down => Coord(0, 1)
    case Left => Coord(-1, 0)
  }

  /** The five moves, in the order tried: the four steps, then staying put. */
  const Moves: seq<Coord> := [Offset(Up), Offset(Right), Offset(Down), Offset(Left), Coord(0, 0)]

  function Plus(a: Coord, b: Coord): Coord
  {
    Coord(a.x + b.x, a.y + b.y)
  }

  /** The Manhattan distance, `minDistance`. */
  function Dist(a: Coord, b: Coord): nat
  {
    Abs(a.x - b.x) + Abs(a.y - b.y)
  }

  /** A move changes the distance to any cell by at most one. */
  lemma MoveDist(p: Coord, m: Coord, t: Coord)
    requires m in Moves
    ensures Dist(t, p) <= Dist(t, Plus(p, m)) + 1
  {
  }

  // ---------------------------------------------------------------------------
  // Wind calculators
  // ---------------------------------------------------------------------------

  datatype Wind = Wind(start: Coord, direction: Dir)

  /** JavaScript's `%`: the remainder keeps the sign of the dividend. */
  function JsRem(a: int, n: int): (r: int)
    requires n != 0
    ensures Abs(r) < Abs(n) && (a >= 0 ==> r >= 0) && (a < 0 ==> r <= 0)
  {
    if a >= 0 then a % Abs(n) else -((-a) % Abs(n))
  }

  /** `((((p - 1) % length) + length) % length) + 1`; a length of zero gives
    * NaN in the source, which equals no coordinate, modelled as none. */
  function Wrap(p: int, length: int): Option<int>
  {
    if length == 0 then None
    else
      var r := JsRem(p - 1, length) + length;
      if r == 0 then None else Some(JsRem(r, length) + 1)
  }

  /** For a positive length the wrap is the position taken modulo the
    * length, counted from 1. */
  lemma WrapIs(p: int, length: int)
    requires length >= 1
    ensures Wrap(p, length) == Some((p - 1) % length + 1)
  {
    JsWrap(p - 1, length);
  }

  /** The double remainder of the source is the remainder of Euclidean
    * division. */
  lemma JsWrap(a: int, n: int)
    requires n >= 1
    ensures JsRem(a, n) + n > 0 && JsRem(JsRem(a, n) + n, n) == a % n
  {
    var r := JsRem(a, n);
    if a >= 0 {
      assert r == a % n;
      ModUnique(r + n, n, 1, r);
    } else {
      var b := -a;
      var q, m := b / n, b % n;
      assert b == q * n + m;
      assert r == -m;
      if m == 0 {
        ModUnique(r + n, n, 1, 0);
        assert a == (-q) * n;
        ModUnique(a, n, -q, 0);
      } else {
        ModUnique(r + n, n, 0, n - m);
        assert a == (-q - 1) * n + (n - m) by {
          assert (-q - 1) * n == -(q * n) - n;
        }
        ModUnique(a, n, -q - 1, n - m);
      }
    }
  }

  /** Where a wind is at `time`: `calculator(time)`. Winds blowing left or
    * right wrap over the valley's width, the others over its height. */
  function Calculator(w: Wind, xLength: int, yLength: int, time: int): Option<int>
  {
    Wrap(Ahead(w, time), Length(w, xLength, yLength))
  }

  /** `newX` or `newY`: the wind's coordinate along its line after `time`
    * minutes, before wrapping. */
  function Ahead(w: Wind, time: int): int
  {
    match w.direction
    case Left => w.start.x - time
    case Right => w.start.x + time
    case Up => w.start.y - time
    case Down => w.start.y + time
  }

  function Length(w: Wind, xLength: int, yLength: int): int
  {
    if w.direction == Left || w.direction == Right then xLength else yLength
  }

  /** A wind stays inside the valley: its coordinate is in [1, length]. */
  lemma CalculatorRange(w: Wind, xLength: int, yLength: int, time: int)
    requires Length(w, xLength, yLength) >= 1
    ensures Calculator(w, xLength, yLength, time).Some?
    ensures 1 <= Calculator(w, xLength, yLength, time).value <= Length(w, xLength, yLength)
  {
    WrapIs(Ahead(w, time), Length(w, xLength, yLength));
  }

  /** A wrap comes back after `length` steps. */
  lemma WrapPeriodic(p: int, length: int)
    requires length >= 1
    ensures Wrap(p + length, length) == Wrap(p, length)
  {
    WrapIs(p, length);
    WrapIs(p + length, length);
    ModShift(p - 1, length);
  }

  lemma ModShift(a: int, n: int)
    requires n >= 1
    ensures (a + n) % n == a % n
  {
    var q, r := a / n, a % n;
    assert a == q * n + r;
    assert a + n == (q + 1) * n + r by {
      assert (q + 1) * n == q * n + n;
    }
    ModUnique(a + n, n, q + 1, r);
  }

  /** A wind comes back after as many minutes as its line is long. */
  lemma CalculatorPeriodic(w: Wind, xLength: int, yLength: int, time: int)
    requires Length(w, xLength, yLength) >= 1
    ensures Calculator(w, xLength, yLength, time + Length(w, xLength, yLength))
      == Calculator(w, xLength, yLength, time)
  {
    var n := Length(w, xLength, yLength);
    if w.direction == Left || w.direction == Up {
      assert Ahead(w, time + n) == Ahead(w, time) - n;
      WrapPeriodic(Ahead(w, time) - n, n);
    } else {
      assert Ahead(w, time + n) == Ahead(w, time) + n;
      WrapPeriodic(Ahead(w, time), n);
    }
  }

  // ---------------------------------------------------------------------------
  // The valley and the search
  // ---------------------------------------------------------------------------

  /** The walls, the grid's row range, the interior's width and height, and
    * the winds by the column (`xWinds`) and the row (`yWinds`) they blow
    * along. */
  datatype Valley = Valley(
    walls: set<Coord>, ymin: int, ymax: int, xLength: int, yLength: int,
    xWinds: map<int, seq<Wind>>, yWinds: map<int, seq<Wind>>)

  function WindsAt(m: map<int, seq<Wind>>, k: int): seq<Wind>
  {
    if k in m then m[k] else []
  }

  /** Some wind of the list is at `c` at `time`. */
  predicate Hit(v: Valley, winds: seq<Wind>, c: int, time: int)
  {
    exists w <- winds :: Calculator(w, v.xLength, v.yLength, time) == Some(c)
  }

  /** A cell may be entered at `time`: no wall, inside the grid's rows, and
    * no wind of its column or row on it at `time`. */
  predicate Open(v: Valley, p: Coord, time: int)
  {
    && p !in v.walls
    && v.ymin <= p.y <= v.ymax
    && !Hit(v, WindsAt(v.xWinds, p.x), p.y, time)
    && !Hit(v, WindsAt(v.yWinds, p.y), p.x, time)
  }

  /** Of two answers, the earlier one; the first wins a tie. */
  function Earlier(best: Option<int>, s: Option<int>): (r: Option<int>)
    ensures r == best || r == s
    ensures r.None? <==> best.None? && s.None?
    ensures r.Some? ==> (best.Some? ==> r.value <= best.value) && (s.Some? ==> r.value <= s.value)
  {
    if s.Some? && (best.None? || s.value < best.value) then s else best
  }

  /** `solve`: the earliest time at which `target` is reached from `pos` at
    * `time` without passing `maxTime`; none when that is impossible. */
  function Solve(v: Valley, pos: Coord, target: Coord, time: int, maxTime: int): (r: Option<int>)
    decreases maxTime - time, 6
  {
    var d := Dist(pos, target);
    if d == 0 then Some(time)
    else if d > maxTime - time then None
    else Best(v, pos, target, time, maxTime, |Moves|)
  }

  /** The earliest answer over the first `k` moves that may be taken. */
  function Best(v: Valley, pos: Coord, target: Coord, time: int, maxTime: int, k: nat): (r: Option<int>)
    requires time < maxTime && k <= |Moves|
    decreases maxTime - time, k
  {
    if k == 0 then None
    else
      var prior := Best(v, pos, target, time, maxTime, k - 1);
      var next := Plus(pos, Moves[k - 1]);
      if !Open(v, next, time) then prior
      else Earlier(prior, Solve(v, next, target, time + 1, maxTime))
  }

  /** The search as the source writes it: the loop over the five moves
    * keeps the best answer so far. */
  method SolveSearch(v: Valley, pos: Coord, target: Coord, time: int, maxTime: int) returns (r: Option<int>)
    ensures r == Solve(v, pos, target, time, maxTime)
    decreases maxTime - time
  {
    var d := Dist(pos, target);
    if d == 0 {
      return Some(time);
    } else if d > maxTime - time {
      return None;
    }
    var best: Option<int> := None;
    for i := 0 to |Moves|
      invariant best == Best(v, pos, target, time, maxTime, i)
    {
      var next := Plus(pos, Moves[i]);
      if next in v.walls || next.y < v.ymin || next.y > v.ymax {
        continue;
      }
      var blockedX := Blocked(v, WindsAt(v.xWinds, next.x), next.y, time);
      if blockedX {
        continue;
      }
      var blockedY := Blocked(v, WindsAt(v.yWinds, next.y), next.x, time);
      if blockedY {
        continue;
      }
      var s := SolveSearch(v, next, target, time + 1, maxTime);
      if s.Some? && (best.None? || s.value < best.value) {
        best := s;
      }
    }
    r := best;
  }

  /** `winds.some(wind => wind.calculator(time) === c)`. */
  method Blocked(v: Valley, winds: seq<Wind>, c: int, time: int) returns (b: bool)
    ensures b <==> Hit(v, winds, c, time)
  {
    b := false;
    for i := 0 to |winds|
      invariant b <==> exists w <- winds[..i] :: Calculator(w, v.xLength, v.yLength, time) == Some(c)
    {
      if Calculator(winds[i], v.xLength, v.yLength, time) == Some(c) {
        b := true;
      }
      assert winds[..i + 1] == winds[..i] + [winds[i]];
    }
    assert winds[..|winds|] == winds;
  }

  // ---------------------------------------------------------------------------
  // What the search finds
  // ---------------------------------------------------------------------------

  /** What the `j`-th move leads to: the search from the cell it enters, or
    * none when that cell may not be entered. */
  function Via(v: Valley, pos: Coord, target: Coord, time: int, maxTime: int, j: nat): Option<int>
    requires time < maxTime && j < |Moves|
  {
    var next := Plus(pos, Moves[j]);
    if Open(v, next, time) then Solve(v, next, target, time + 1, maxTime) else None
  }

  /** The answer over the first `k` moves is the earliest answer of a move
    * among them: none exactly when none of them leads anywhere, and
    * otherwise what one of them leads to, no later than any other. */
  lemma {:induction false} BestIsEarliest(v: Valley, pos: Coord, target: Coord, time: int, maxTime: int, k: nat)
    requires time < maxTime && k <= |Moves|
    ensures Best(v, pos, target, time, maxTime, k).None?
      <==> forall j :: 0 <= j < k ==> Via(v, pos, target, time, maxTime, j).None?
    ensures Best(v, pos, target, time, maxTime, k).Some? ==>
      exists j :: 0 <= j < k && Via(v, pos, target, time, maxTime, j) == Best(v, pos, target, time, maxTime, k)
    ensures forall j :: 0 <= j < k && Via(v, pos, target, time, maxTime, j).Some? ==>
      Best(v, pos, target, time, maxTime, k).Some?
      && Best(v, pos, target, time, maxTime, k).value <= Via(v, pos, target, time, maxTime, j).value
  {
    if k > 0 {
      BestIsEarliest(v, pos, target, time, maxTime, k - 1);
      var r := Best(v, pos, target, time, maxTime, k);
      if r.Some? && r != Best(v, pos, target, time, maxTime, k - 1) {
        assert Via(v, pos, target, time, maxTime, k - 1) == r;
      }
    }
  }

  /** An answer is no earlier than `time` plus the distance still to go, and
    * no later than `maxTime` when the search starts in time. */
  lemma {:induction false} SolveBounds(v: Valley, pos: Coord, target: Coord, time: int, maxTime: int)
    requires time <= maxTime
    ensures var r := Solve(v, pos, target, time, maxTime);
      r.Some? ==> time + Dist(pos, target) <= r.value <= maxTime
    decreases maxTime - time, 6
  {
    var d := Dist(pos, target);
    if d != 0 && d <= maxTime - time {
      BestBounds(v, pos, target, time, maxTime, |Moves|);
    }
  }

  lemma {:induction false} BestBounds(v: Valley, pos: Coord, target: Coord, time: int, maxTime: int, k: nat)
    requires time < maxTime && k <= |Moves|
    ensures var r := Best(v, pos, target, time, maxTime, k);
      r.Some? ==> time + Dist(pos, target) <= r.value <= maxTime
    decreases maxTime - time, k
  {
    if k > 0 {
      BestBounds(v, pos, target, time, maxTime, k - 1);
      var next := Plus(pos, Moves[k - 1]);
      SolveBounds(v, next, target, time + 1, maxTime);
      MoveDist(pos, Moves[k - 1], target);
    }
  }

  /** An answer cut at `bound`: kept when it is not later than `bound`. */
  function Cut(r: Option<int>, bound: int): Option<int>
  {
    if r.Some? && r.value <= bound then r else None
  }

  /** A search with a smaller time bound finds what the larger one finds,
    * when that is within the smaller bound, and nothing otherwise. */
  lemma {:induction false} SolveCut(v: Valley, pos: Coord, target: Coord, time: int, small: int, large: int)
    requires time <= small <= large
    ensures Solve(v, pos, target, time, small) == Cut(Solve(v, pos, target, time, large), small)
    decreases large - time, 6
  {
    var d := Dist(pos, target);
    SolveBounds(v, pos, target, time, large);
    if d != 0 && d <= small - time {
      BestCut(v, pos, target, time, small, large, |Moves|);
    }
  }

  lemma {:induction false} BestCut(v: Valley, pos: Coord, target: Coord, time: int, small: int, large: int, k: nat)
    requires time < small <= large && k <= |Moves|
    ensures Best(v, pos, target, time, small, k) == Cut(Best(v, pos, target, time, large, k), small)
    decreases large - time, k
  {
    if k > 0 {
      BestCut(v, pos, target, time, small, large, k - 1);
      var next := Plus(pos, Moves[k - 1]);
      if Open(v, next, time) {
        SolveCut(v, next, target, time + 1, small, large);
      }
    }
  }

  // ---------------------------------------------------------------------------
  // Holes and the growing bound
  // ---------------------------------------------------------------------------

  /** The first `x` in [x, hi] with `(x, y)` not a wall. */
  function HoleFrom(walls: set<Coord>, y: int, x: int, hi: int): (r: Option<int>)
    decreases hi - x
  {
    if x > hi then None
    else if Coord(x, y) !in walls then Some(x)
    else HoleFrom(walls, y, x + 1, hi)
  }

  /** The hole of row `y`, searched over the row's extent `xRange` (none for
    * a row without cells). */
  function Hole(walls: set<Coord>, y: int, xRange: Option<(int, int)>): Option<Coord>
  {
    if xRange.None? then None
    else match HoleFrom(walls, y, xRange.value.0, xRange.value.1)
      case None => None
      case Some(x) => Some(Coord(x, y))
  }

  /** The hole found is the first cell of the range that is not a wall, and
    * there is none exactly when the whole range is wall. */
  lemma {:induction false} HoleFromFirst(walls: set<Coord>, y: int, x: int, hi: int)
    ensures HoleFrom(walls, y, x, hi).Some? ==>
      var h := HoleFrom(walls, y, x, hi).value;
      x <= h <= hi && Coord(h, y) !in walls && forall x' :: x <= x' < h ==> Coord(x', y) in walls
    ensures HoleFrom(walls, y, x, hi).None? <==> forall x' :: x <= x' <= hi ==> Coord(x', y) in walls
    decreases hi - x
  {
    if x <= hi && Coord(x, y) in walls {
      HoleFromFirst(walls, y, x + 1, hi);
    }
  }

  /** `findHole`: the loop over the row's range; "Cannot find hole" when
    * every cell of it is a wall or the row has no cells. */
  method FindHole(walls: set<Coord>, y: int, xRange: Option<(int, int)>) returns (r: Result<Coord>)
    ensures r.Success? <==> Hole(walls, y, xRange).Some?
    ensures r.Success? ==> r.value == Hole(walls, y, xRange).value
  {
    if xRange.None? {
      return Failure("Cannot find hole");
    }
    var (lo, hi) := xRange.value;
    var x := lo;
    while x <= hi
      invariant lo <= x && (x <= hi + 1 || x == lo)
      invariant HoleFrom(walls, y, x, hi) == HoleFrom(walls, y, lo, hi)
    {
      if Coord(x, y) !in walls {
        return Success(Coord(x, y));
      }
      x := x + 1;
    }
    return Failure("Cannot find hole");
  }

  /** Leaving `from` at `t0`, `to` is reached at `t` at the earliest: every
    * search with a bound from `t0` on finds `t` when the bound allows it, and
    * nothing otherwise. */
  ghost predicate Arrives(v: Valley, from: Coord, to: Coord, t0: int, t: int)
  {
    t0 <= t && forall m :: t0 <= m ==> Solve(v, from, to, t0, m) == Cut(Some(t), m)
  }

  /** Once a search finds an answer, every bound gives the same answer cut
    * at that bound. */
  lemma Found(v: Valley, from: Coord, to: Coord, t0: int, bound: int)
    requires t0 <= bound && Solve(v, from, to, t0, bound).Some?
    ensures Arrives(v, from, to, t0, Solve(v, from, to, t0, bound).value)
  {
    var t := Solve(v, from, to, t0, bound).value;
    SolveBounds(v, from, to, t0, bound);
    forall m | t0 <= m
      ensures Solve(v, from, to, t0, m) == Cut(Some(t), m)
    {
      if m <= bound {
        SolveCut(v, from, to, t0, m, bound);
      } else {
        SolveCut(v, from, to, t0, bound, m);
      }
    }
  }

  // ---------------------------------------------------------------------------
  // Ways through the valley
  // ---------------------------------------------------------------------------

  /** Entering `q` from `p` during minute `time`: one of the five moves,
    * onto a cell that is open at `time`. */
  predicate Step(v: Valley, p: Coord, q: Coord, time: int)
  {
    (exists j :: 0 <= j < |Moves| && q == Plus(p, Moves[j])) && Open(v, q, time)
  }

  /** A way through the valley leaving `from` at `t0`: the cell held at
    * each minute, one step per minute. */
  ghost predicate IsWay(v: Valley, from: Coord, t0: int, way: seq<Coord>)
  {
    && way != [] && way[0] == from
    && forall k :: 0 <= k < |way| - 1 ==> Step(v, way[k], way[k + 1], t0 + k)
  }

  /** A way from the cell after the first minute. */
  lemma WayTail(v: Valley, from: Coord, t0: int, way: seq<Coord>)
    requires IsWay(v, from, t0, way) && |way| >= 2
    ensures IsWay(v, way[1], t0 + 1, way[1..]) && Step(v, from, way[1], t0)
  {
    var tail := way[1..];
    forall k | 0 <= k < |tail| - 1
      ensures Step(v, tail[k], tail[k + 1], t0 + 1 + k)
    {
      assert Step(v, way[k + 1], way[k + 2], t0 + (k + 1));
    }
  }

  /** Every answer of the search is the arrival time of a way that ends on
    * the target. */
  lemma {:induction false} SolveSound(v: Valley, pos: Coord, target: Coord, time: int, maxTime: int) returns (way: seq<Coord>)
    requires Solve(v, pos, target, time, maxTime).Some?
    ensures IsWay(v, pos, time, way) && way[|way| - 1] == target
    ensures Solve(v, pos, target, time, maxTime).value == time + |way| - 1
    decreases maxTime - time
  {
    if Dist(pos, target) == 0 {
      way := [pos];
    } else {
      BestIsEarliest(v, pos, target, time, maxTime, |Moves|);
      var j :| 0 <= j < |Moves| && Via(v, pos, target, time, maxTime, j) == Solve(v, pos, target, time, maxTime);
      var next := Plus(pos, Moves[j]);
      var rest := SolveSound(v, next, target, time + 1, maxTime);
      way := [pos] + rest;
      assert way[1..] == rest;
      forall k | 0 <= k < |way| - 1
        ensures Step(v, way[k], way[k + 1], time + k)
      {
        if k > 0 {
          assert Step(v, rest[k - 1], rest[k], time + 1 + (k - 1));
        }
      }
    }
  }

  /** The search finds an arrival no later than that of any way to the
    * target that arrives within the bound. */
  lemma {:induction false} SolveComplete(v: Valley, pos: Coord, target: Coord, time: int, maxTime: int, way: seq<Coord>)
    requires IsWay(v, pos, time, way) && way[|way| - 1] == target && time + |way| - 1 <= maxTime
    ensures Solve(v, pos, target, time, maxTime).Some?
    ensures Solve(v, pos, target, time, maxTime).value <= time + |way| - 1
    decreases |way|
  {
    if Dist(pos, target) != 0 {
      assert |way| >= 2;
      WayTail(v, pos, time, way);
      var next := way[1];
      var j :| 0 <= j < |Moves| && next == Plus(pos, Moves[j]);
      SolveComplete(v, next, target, time + 1, maxTime, way[1..]);
      SolveVia(v, pos, target, time, maxTime, j);
    }
  }

  /** When the `j`-th move enters an open cell from which the search finds
    * an answer, the search from `pos` finds one no later. */
  lemma SolveVia(v: Valley, pos: Coord, target: Coord, time: int, maxTime: int, j: nat)
    requires Dist(pos, target) != 0 && time < maxTime && j < |Moves|
    requires Open(v, Plus(pos, Moves[j]), time)
    requires Solve(v, Plus(pos, Moves[j]), target, time + 1, maxTime).Some?
    ensures Solve(v, pos, target, time, maxTime).Some?
    ensures Solve(v, pos, target, time, maxTime).value <= Solve(v, Plus(pos, Moves[j]), target, time + 1, maxTime).value
  {
    var next := Plus(pos, Moves[j]);
    SolveBounds(v, next, target, time + 1, maxTime);
    MoveDist(pos, Moves[j], target);
    assert Dist(pos, target) == Dist(target, pos);
    assert Via(v, pos, target, time, maxTime, j) == Solve(v, next, target, time + 1, maxTime);
    BestIsEarliest(v, pos, target, time, maxTime, |Moves|);
  }

  /** `t` is the earliest minute at which a way leaving `from` at `t0`
    * reaches `to`. */
  ghost predicate Earliest(v: Valley, from: Coord, to: Coord, t0: int, t: int)
  {
    && (exists way :: IsWay(v, from, t0, way) && way[|way| - 1] == to && t == t0 + |way| - 1)
    && forall way :: IsWay(v, from, t0, way) && way[|way| - 1] == to ==> t <= t0 + |way| - 1
  }

  /** What every bounded search agrees on is the earliest arrival over all
    * ways through the valley. */
  lemma ArrivesEarliest(v: Valley, from: Coord, to: Coord, t0: int, t: int)
    requires Arrives(v, from, to, t0, t)
    ensures Earliest(v, from, to, t0, t)
  {
    assert Solve(v, from, to, t0, t) == Some(t);
    var way := SolveSound(v, from, to, t0, t);
    forall w | IsWay(v, from, t0, w) && w[|w| - 1] == to
      ensures t <= t0 + |w| - 1
    {
      var a := t0 + |w| - 1;
      assert Solve(v, from, to, t0, a) == Cut(Some(t), a);
      SolveComplete(v, from, to, t0, a, w);
    }
  }

  /** `solveIteratively`: searches with a growing bound, starting at the
    * distance to go; the answer less the free last minute, none when `fuel`
    * searches were not enough. The bound grows by
    * `Math.floor(maxTime * 1.1)`, with 1.1 taken as the exact decimal. */
  method SolveIteratively(v: Valley, start: Coord, end: Coord, startTime: nat, fuel: nat) returns (r: Option<int>)
    ensures r.Some? ==> Arrives(v, start, end, startTime, r.value + 1)
    ensures r.Some? ==> Earliest(v, start, end, startTime, r.value + 1)
  {
    var maxTime := startTime + Dist(start, end);
    var left := fuel;
    while left > 0
      invariant startTime <= maxTime
    {
      var timeUsed := SolveSearch(v, start, end, startTime, maxTime);
      if timeUsed.Some? {
        Found(v, start, end, startTime, maxTime);
        ArrivesEarliest(v, start, end, startTime, timeUsed.value);
        return Some(timeUsed.value - 1);
      }
      maxTime := maxTime + (maxTime * 11) / 10;
      left := left - 1;
    }
    return None;
  }

  /** Part 1: from the hole of row 0 to the hole of the last row; fails when
    * a hole is missing. */
  method Part1(v: Valley, topRange: Option<(int, int)>, bottomRange: Option<(int, int)>, fuel: nat)
    returns (r: Result<Option<int>>)
    ensures r.Success? <==> Hole(v.walls, 0, topRange).Some? && Hole(v.walls, v.ymax, bottomRange).Some?
    ensures r.Success? && r.value.Some? ==>
      Arrives(v, Hole(v.walls, 0, topRange).value, Hole(v.walls, v.ymax, bottomRange).value, 0, r.value.value + 1)
    ensures r.Success? && r.value.Some? ==>
      Earliest(v, Hole(v.walls, 0, topRange).value, Hole(v.walls, v.ymax, bottomRange).value, 0, r.value.value + 1)
  {
    var entry := FindHole(v.walls, 0, topRange);
    if entry.Failure? {
      return Failure(entry.message);
    }
    var exit := FindHole(v.walls, v.ymax, bottomRange);
    if exit.Failure? {
      return Failure(exit.message);
    }
    var time := SolveIteratively(v, entry.value, exit.value, 0, fuel);
    return Success(time);
  }

  /** Part 2: there, back, and there again, each leg leaving the minute after
    * the last one arrived. */
  method Part2(v: Valley, topRange: Option<(int, int)>, bottomRange: Option<(int, int)>, fuel: nat)
    returns (r: Result<Option<int>>)
    ensures r.Success? <==> Hole(v.walls, 0, topRange).Some? && Hole(v.walls, v.ymax, bottomRange).Some?
    ensures r.Success? && r.value.Some? ==>
      var entry := Hole(v.walls, 0, topRange).value;
      var exit := Hole(v.walls, v.ymax, bottomRange).value;
      exists t1: int, t2: int :: Arrives(v, entry, exit, 0, t1)
        && Arrives(v, exit, entry, t1, t2)
        && Arrives(v, entry, exit, t2, r.value.value + 1)
  {
    var entry := FindHole(v.walls, 0, topRange);
    if entry.Failure? {
      return Failure(entry.message);
    }
    var exit := FindHole(v.walls, v.ymax, bottomRange);
    if exit.Failure? {
      return Failure(exit.message);
    }
    var time1 := SolveIteratively(v, entry.value, exit.value, 0, fuel);
    if time1.None? {
      return Success(None);
    }
    var time2 := SolveIteratively(v, exit.value, entry.value, time1.value + 1, fuel);
    if time2.None? {
      return Success(None);
    }
    var time3 := SolveIteratively(v, entry.value, exit.value, time2.value + 1, fuel);
    return Success(time3);
  }
}
