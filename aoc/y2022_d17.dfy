/** 2022 day 17: rocks of five shapes fall one after another into a chamber
    seven units wide, pushed sideways by a repeating pattern of jets. The
    grid is a set of occupied cells, y growing upwards, with the floor in
    row 0; a rock is a list of rows, row 0 at its bottom. Once the jets and
    the shapes come back to the phase they had at a first recorded point,
    the solver skips as many whole cycles as still fit, adding each cycle's
    height gain. */
module Day2022_17 {
  import opened Common

  type Rock = seq<seq<bool>>

  type Cells = set<(int, int)>

  /** `ROCKS`: a bar, a plus, a mirrored L, a column and a square. */
  const Rocks: seq<Rock> := [
    [[true, true, true, true]],
    [[false, true, false], [true, true, true], [false, true, false]],
    [[true, true, true], [false, false, true], [false, false, true]],
    [[true], [true], [true], [true]],
    [[true, true], [true, true]]
  ]

  const Width := 7

  /** A non-empty rectangle that fits the chamber from x = 2, with a cell
      in its bottom row and one in its top row. */
  ghost predicate Shaped(rock: Rock)
  {
    && |rock| > 0
    && 0 < |rock[0]| <= Width - 2
    && (forall ty :: 0 <= ty < |rock| ==> |rock[ty]| == |rock[0]|)
    && (exists tx :: 0 <= tx < |rock[0]| && rock[0][tx])
    && (exists tx :: 0 <= tx < |rock[0]| && TopRow(rock)[tx])
  }

  function TopRow(rock: Rock): seq<bool>
    requires |rock| > 0
  {
    rock[|rock| - 1]
  }

  lemma RocksShaped()
    ensures |Rocks| == 5
    ensures forall i :: 0 <= i < 5 ==> Shaped(Rocks[i])
  {
    assert Rocks[0][0][0] && TopRow(Rocks[0])[0];
    assert Rocks[1][0][1] && TopRow(Rocks[1])[1];
    assert Rocks[2][0][0] && TopRow(Rocks[2])[2];
    assert Rocks[3][0][0] && TopRow(Rocks[3])[0];
    assert Rocks[4][0][0] && TopRow(Rocks[4])[0];
  }

  /** The cells `rock` covers with its bottom-left corner at (x, y). */
  ghost function RockCells(rock: Rock, x: int, y: int): Cells
    requires Shaped(rock)
  {
    set ty, tx | 0 <= ty < |rock| && 0 <= tx < |rock[0]| && rock[ty][tx] :: (x + tx, y + ty)
  }

  ghost predicate InRange(rock: Rock, x: int)
    requires Shaped(rock)
  {
    0 <= x <= Width - |rock[0]|
  }

  /** `willHit`: placed at (x, y) the rock would stick out of the chamber
      or overlap an occupied cell. The cells are scanned row by row as the
      source does; `HitsMeaning` states the result as a set property. */
  ghost predicate Hits(cells: Cells, rock: Rock, x: int, y: int)
    requires Shaped(rock)
  {
    !InRange(rock, x) || HitsFrom(cells, rock, x, y, 0, 0)
  }

  /** Some solid cell of the rock at or after row `ty`, column `tx` (in
      scanning order) is occupied. */
  ghost predicate HitsFrom(cells: Cells, rock: Rock, x: int, y: int, ty: nat, tx: nat)
    requires Shaped(rock) && ty <= |rock| && tx <= |rock[0]|
    decreases |rock| - ty, |rock[0]| - tx
  {
    if ty == |rock| then false
    else if tx == |rock[0]| then HitsFrom(cells, rock, x, y, ty + 1, 0)
    else (rock[ty][tx] && (x + tx, y + ty) in cells) || HitsFrom(cells, rock, x, y, ty, tx + 1)
  }

  /** The solid cell (tx, ty) of the rock at (x, y) is occupied. */
  ghost predicate HitAt(cells: Cells, rock: Rock, x: int, y: int, ty: int, tx: int)
    requires Shaped(rock)
  {
    0 <= ty < |rock| && 0 <= tx < |rock[0]| && rock[ty][tx] && (x + tx, y + ty) in cells
  }

  lemma {:induction false} HitsFromMeaning(cells: Cells, rock: Rock, x: int, y: int, ty: nat, tx: nat)
    requires Shaped(rock) && ty <= |rock| && tx <= |rock[0]|
    ensures HitsFrom(cells, rock, x, y, ty, tx)
        <==> exists ty', tx' :: (ty' > ty || (ty' == ty && tx' >= tx)) && HitAt(cells, rock, x, y, ty', tx')
    decreases |rock| - ty, |rock[0]| - tx
  {
    if ty == |rock| {
    } else if tx == |rock[0]| {
      HitsFromMeaning(cells, rock, x, y, ty + 1, 0);
    } else {
      HitsFromMeaning(cells, rock, x, y, ty, tx + 1);
      if HitAt(cells, rock, x, y, ty, tx) {
        assert (ty > ty || (ty == ty && tx >= tx)) && HitAt(cells, rock, x, y, ty, tx);
      }
    }
  }

  /** A rock in range hits exactly when one of its cells is occupied. */
  lemma HitsMeaning(cells: Cells, rock: Rock, x: int, y: int)
    requires Shaped(rock)
    ensures Hits(cells, rock, x, y)
        <==> !InRange(rock, x) || exists c :: c in RockCells(rock, x, y) && c in cells
  {
    HitsFromMeaning(cells, rock, x, y, 0, 0);
    if exists c :: c in RockCells(rock, x, y) && c in cells {
      var c :| c in RockCells(rock, x, y) && c in cells;
      var ty, tx :| 0 <= ty < |rock| && 0 <= tx < |rock[0]| && rock[ty][tx] && c == (x + tx, y + ty);
      assert HitAt(cells, rock, x, y, ty, tx);
    }
    if HitsFrom(cells, rock, x, y, 0, 0) {
      var ty, tx :| (ty > 0 || (ty == 0 && tx >= 0)) && HitAt(cells, rock, x, y, ty, tx);
      assert (x + tx, y + ty) in RockCells(rock, x, y);
    }
  }

  method WillHit(cells: Cells, rock: Rock, x: int, y: int) returns (hit: bool)
    requires Shaped(rock)
    ensures hit == Hits(cells, rock, x, y)
  {
    if x < 0 {
      return true;
    } else if x > Width - |rock[0]| {
      return true;
    }
    var ty := 0;
    while ty < |rock|
      invariant 0 <= ty <= |rock|
      invariant Hits(cells, rock, x, y) == HitsFrom(cells, rock, x, y, ty, 0)
    {
      var tx := 0;
      while tx < |rock[0]|
        invariant 0 <= tx <= |rock[0]|
        invariant Hits(cells, rock, x, y) == HitsFrom(cells, rock, x, y, ty, tx)
      {
        if rock[ty][tx] && (x + tx, y + ty) in cells {
          return true;
        }
        tx := tx + 1;
      }
      ty := ty + 1;
    }
    return false;
  }

  /** The floor row is occupied across the chamber. */
  ghost predicate Floored(cells: Cells)
  {
    forall x :: 0 <= x < Width ==> (x, 0) in cells
  }

  /** A rock in range cannot enter the floor row. */
  lemma FloorBlocks(cells: Cells, rock: Rock, x: int)
    requires Floored(cells) && Shaped(rock) && InRange(rock, x)
    ensures Hits(cells, rock, x, 0)
  {
    var tx :| 0 <= tx < |rock[0]| && rock[0][tx];
    assert (x + tx, 0 + 0) in RockCells(rock, x, 0) && (x + tx, 0) in cells;
    HitsMeaning(cells, rock, x, 0);
  }

  /** The sideways step of jet number `windIdx`: '<' pushes left, anything
      else right. With no jets at all the source reads `undefined`, which
      is not '<'. */
  function Dx(winds: seq<char>, windIdx: nat): (dx: int)
    ensures dx == -1 || dx == 1
  {
    if |winds| > 0 && winds[windIdx % |winds|] == '<' then -1 else 1
  }

  /** Where a rock came to rest, and the jet after its last. */
  datatype Rest = Rest(x: int, y: int, windIdx: nat)

  /** The fall of one rock from (x, y) with jet `windIdx` next: each step
      takes one jet, moves sideways when that does not hit, then moves down
      one row or stops. The result is where the rock rests and the next
      jet. */
  ghost function Fall(cells: Cells, rock: Rock, winds: seq<char>, x: int, y: int, windIdx: nat): Rest
    requires Floored(cells) && Shaped(rock) && InRange(rock, x) && y >= 1
    decreases y
  {
    var dx := Dx(winds, windIdx);
    var x' := if Hits(cells, rock, x + dx, y) then x else x + dx;
    if Hits(cells, rock, x', y - 1) then Rest(x', y, windIdx + 1)
    else
      if y == 1 then FloorBlocks(cells, rock, x'); Rest(x', y, windIdx + 1)
      else Fall(cells, rock, winds, x', y - 1, windIdx + 1)
  }

  /** A rock that starts clear rests clear, in range, on something, at or
      below its start, after taking at least one jet. */
  lemma {:induction false} FallRests(cells: Cells, rock: Rock, winds: seq<char>, x: int, y: int, windIdx: nat)
    requires Floored(cells) && Shaped(rock) && InRange(rock, x) && y >= 1
    requires !Hits(cells, rock, x, y)
    ensures var r := Fall(cells, rock, winds, x, y, windIdx);
      && InRange(rock, r.x) && 1 <= r.y <= y && r.windIdx > windIdx
      && !Hits(cells, rock, r.x, r.y) && Hits(cells, rock, r.x, r.y - 1)
    decreases y
  {
    var dx := Dx(winds, windIdx);
    var x' := if Hits(cells, rock, x + dx, y) then x else x + dx;
    if !Hits(cells, rock, x', y - 1) {
      if y == 1 {
        FloorBlocks(cells, rock, x');
      } else {
        FallRests(cells, rock, winds, x', y - 1, windIdx + 1);
      }
    }
  }

  /** Every row of the fall takes one jet. */
  lemma {:induction false} FallAdvances(cells: Cells, rock: Rock, winds: seq<char>, x: int, y: int, windIdx: nat)
    requires Floored(cells) && Shaped(rock) && InRange(rock, x) && y >= 1
    ensures Fall(cells, rock, winds, x, y, windIdx).windIdx > windIdx
    decreases y
  {
    var dx := Dx(winds, windIdx);
    var x' := if Hits(cells, rock, x + dx, y) then x else x + dx;
    if !Hits(cells, rock, x', y - 1) && y > 1 {
      FallAdvances(cells, rock, winds, x', y - 1, windIdx + 1);
    }
  }

  /** The first recorded point of the cycle search: the jet count, the
      rock index and the height then (the source's three -1 sentinels are
      None). */
  datatype Reset = Reset(wind: int, rock: int, y: int)

  datatype State = State(cells: Cells, yMax: int, ySkipped: int, windIdx: nat, reset: Option<Reset>)

  /** `yMax` is the height of the highest occupied cell. */
  ghost predicate IsTop(cells: Cells, yMax: int)
  {
    && (forall c :: c in cells ==> c.1 <= yMax)
    && HasRow(cells, yMax)
  }

  /** Some cell of row `y` is occupied. */
  ghost predicate HasRow(cells: Cells, y: int)
  {
    exists x :: (x, y) in cells
  }

  /** What the loop needs of its state: the floor is there, the top and
      the skipped height are not negative, and a recorded height is at most
      the top. (That `yMax` is the top, `IsTop`, is kept by a lemma of its
      own.) */
  ghost predicate Good(s: State)
  {
    && Floored(s.cells)
    && s.yMax >= 0
    && s.ySkipped >= 0
    && (s.reset.Some? ==> s.reset.value.y <= s.yMax)
  }

  /** The first recorded point lies before rock `rockIdx`. */
  ghost predicate RecordedBefore(s: State, rockIdx: int)
  {
    s.reset.Some? ==> 0 <= s.reset.value.rock < rockIdx
  }

  ghost function FloorCells(): Cells
  {
    set x | 0 <= x < Width :: (x, 0)
  }

  /** The empty chamber: only the floor, top 0, nothing skipped or
      recorded. */
  ghost function Init(): (s: State)
    ensures Good(s) && RecordedBefore(s, 0) && IsTop(s.cells, s.yMax)
  {
    assert (0, 0) in FloorCells();
    State(FloorCells(), 0, 0, 0, None)
  }

  /** A rock appears at x = 2 with three free rows between it and the top,
      falls, and comes to rest; its cells join the grid and the top rises
      to its top row if that is higher. */
  ghost function Settle(s: State, rock: Rock, winds: seq<char>): State
    requires Good(s) && Shaped(rock)
  {
    AddRock(s, rock, Landing(s, rock, winds, 1))
  }

  /** Where a rock that appears at x = 2, three free rows above the top,
      comes to rest. The countdown `hold` (1 at its use) only delays the
      unfolding of the fall, so that facts about `Settle` that do not
      depend on where the rock rests are proved without it; `LandingIs`
      gives the fall back. */
  ghost function Landing(s: State, rock: Rock, winds: seq<char>, hold: nat): Rest
    requires Good(s) && Shaped(rock)
  {
    if hold == 0 then Fall(s.cells, rock, winds, 2, s.yMax + 4, s.windIdx)
    else Landing(s, rock, winds, hold - 1)
  }

  lemma LandingIs(s: State, rock: Rock, winds: seq<char>)
    requires Good(s) && Shaped(rock)
    ensures Landing(s, rock, winds, 1) == Fall(s.cells, rock, winds, 2, s.yMax + 4, s.windIdx)
  {
    assert Landing(s, rock, winds, 1) == Landing(s, rock, winds, 0);
  }

  /** The rock's cells, at rest at `r`, join the grid; the top rises to
      the rock's top row if that is higher; the jet index moves on. */
  ghost function AddRock(s: State, rock: Rock, r: Rest): State
    requires Shaped(rock)
  {
    State(s.cells + RockCells(rock, r.x, r.y), Max2(s.yMax, r.y + |rock| - 1), s.ySkipped, r.windIdx, s.reset)
  }

  function Max2(a: int, b: int): (r: int)
    ensures r >= a && r >= b && (r == a || r == b)
  {
    if a >= b then a else b
  }

  /** A rock spawned three rows above the top starts clear. */
  lemma SpawnClear(s: State, rock: Rock)
    requires Good(s) && IsTop(s.cells, s.yMax) && Shaped(rock)
    ensures !Hits(s.cells, rock, 2, s.yMax + 4)
  {
    RockCellsSpan(rock, 2, s.yMax + 4);
    HitsMeaning(s.cells, rock, 2, s.yMax + 4);
  }

  /** Settling a rock keeps the floor, never lowers the top, and takes at
      least one jet. */
  lemma SettleGood(s: State, rock: Rock, winds: seq<char>)
    requires Good(s) && Shaped(rock)
    ensures Good(Settle(s, rock, winds))
    ensures Settle(s, rock, winds).yMax >= s.yMax
    ensures Settle(s, rock, winds).windIdx > s.windIdx
    ensures Settle(s, rock, winds).ySkipped == s.ySkipped && Settle(s, rock, winds).reset == s.reset
  {
    LandingIs(s, rock, winds);
    FallAdvances(s.cells, rock, winds, 2, s.yMax + 4, s.windIdx);
    var r := Fall(s.cells, rock, winds, 2, s.yMax + 4, s.windIdx);
    FlooredMore(s.cells, RockCells(rock, r.x, r.y));
  }

  /** Settling a rock keeps `yMax` the height of the highest occupied
      cell. */
  lemma SettleTop(s: State, rock: Rock, winds: seq<char>)
    requires Good(s) && Shaped(rock) && IsTop(s.cells, s.yMax)
    ensures IsTop(Settle(s, rock, winds).cells, Settle(s, rock, winds).yMax)
  {
    AddRockTop(s, rock, Landing(s, rock, winds, 1));
  }

  /** The rock that appears above the top overlaps nothing where it comes
      to rest, would hit something one row lower, and rests in range,
      no higher than it appeared. */
  lemma SettleRests(s: State, rock: Rock, winds: seq<char>)
    requires Good(s) && IsTop(s.cells, s.yMax) && Shaped(rock)
    ensures var r := Fall(s.cells, rock, winds, 2, s.yMax + 4, s.windIdx);
      && InRange(rock, r.x) && 1 <= r.y <= s.yMax + 4
      && !Hits(s.cells, rock, r.x, r.y) && Hits(s.cells, rock, r.x, r.y - 1)
  {
    SpawnClear(s, rock);
    FallRests(s.cells, rock, winds, 2, s.yMax + 4, s.windIdx);
  }

  lemma AddRockTop(s: State, rock: Rock, r: Rest)
    requires Shaped(rock) && IsTop(s.cells, s.yMax)
    ensures IsTop(AddRock(s, rock, r).cells, AddRock(s, rock, r).yMax)
  {
    RockCellsSpan(rock, r.x, r.y);
    TopAfter(s.cells, s.yMax, RockCells(rock, r.x, r.y), r.y + |rock| - 1);
  }

  lemma FlooredMore(cells: Cells, added: Cells)
    requires Floored(cells)
    ensures Floored(cells + added)
  {
  }

  /** The rock's cells lie in its rows, and one of them in its top row. */
  lemma RockCellsSpan(rock: Rock, x: int, y: int)
    requires Shaped(rock)
    ensures forall c :: c in RockCells(rock, x, y) ==> y <= c.1 <= y + |rock| - 1
    ensures HasRow(RockCells(rock, x, y), y + |rock| - 1)
  {
    var tx :| 0 <= tx < |rock[0]| && TopRow(rock)[tx];
    assert (x + tx, y + (|rock| - 1)) in RockCells(rock, x, y);
  }

  /** Adding cells no higher than `top`, one of them at `top`, makes the
      larger of the two heights the top. */
  lemma TopAfter(cells: Cells, yMax: int, added: Cells, top: int)
    requires IsTop(cells, yMax)
    requires forall c :: c in added ==> c.1 <= top
    requires HasRow(added, top)
    ensures IsTop(cells + added, Max2(yMax, top))
  {
    var x0 :| (x0, yMax) in cells;
    var x1 :| (x1, top) in added;
    assert (x0, yMax) in cells + added && (x1, top) in cells + added;
  }

  /** The rock index the source jumps to when it skips whole cycles of
      `rockIncr` rocks: as many as fit in `noRocks` - `rockIdx`. */
  function SkipTo(rockIdx: int, rockIncr: int, noRocks: int): (r: int)
    requires 0 < rockIncr && rockIdx < noRocks
    ensures rockIdx <= r <= noRocks
  {
    DivBounds(noRocks - rockIdx, rockIncr);
    rockIdx + ((noRocks - rockIdx) / rockIncr) * rockIncr
  }

  lemma DivBounds(a: int, b: int)
    requires a >= 0 && b > 0
    ensures 0 <= (a / b) * b <= a < (a / b) * b + b
  {
    assert a == (a / b) * b + a % b;
  }

  /** A state of the loop and the index of the last rock accounted for. */
  datatype Point = Point(state: State, rockIdx: int)

  /** The cycle search after rock `rockIdx` has settled: the first time at
      least 5 passes over the jets have been used, the point is recorded;
      later, when both the jet phase and the shape phase equal the
      recorded ones, whole cycles are skipped and their height gain is
      added to `ySkipped`. The result is the new state and the index of the
      last rock accounted for. With `corrected` false the skip is the
      source's (`SkipTo`); with it true, the evidently intended one
      (`SkipToCorrected`). */
  function Fold(s: State, rockIdx: int, winds: seq<char>, noRocks: int, corrected: bool): (r: Point)
    requires RecordedBefore(s, rockIdx) && rockIdx < noRocks
    ensures rockIdx <= r.rockIdx <= noRocks
    ensures r.state.cells == s.cells && r.state.yMax == s.yMax && r.state.windIdx == s.windIdx
  {
    match s.reset
    case None =>
      if s.windIdx >= |winds| * 5 then Point(s.(reset := Some(Reset(s.windIdx, rockIdx, s.yMax))), rockIdx)
      else Point(s, rockIdx)
    case Some(f) =>
      if InPhase(s.windIdx, rockIdx, f, winds) then Skip(s, rockIdx, f, noRocks, corrected)
      else Point(s, rockIdx)
  }

  /** The jet index and the rock index are at the recorded point's phase:
      the same jet modulo the jet count, the same shape modulo 5. */
  predicate InPhase(windIdx: int, rockIdx: int, f: Reset, winds: seq<char>)
  {
    |winds| > 0 && windIdx % |winds| == f.wind % |winds| && rockIdx % 5 == f.rock % 5
  }

  /** The skip: `rockIncr` rocks since the recorded point gained `yIncr`
      rows; as many such cycles as `SkipTo` allows are jumped over and
      their rows added to `ySkipped`. Nothing else in the state changes. */
  function Skip(s: State, rockIdx: int, f: Reset, noRocks: int, corrected: bool): (r: Point)
    requires f.rock < rockIdx < noRocks
    ensures r.rockIdx == if corrected then SkipToCorrected(rockIdx, rockIdx - f.rock, noRocks)
                         else SkipTo(rockIdx, rockIdx - f.rock, noRocks)
    ensures r.state == s.(ySkipped := r.state.ySkipped)
    ensures f.y <= s.yMax ==> r.state.ySkipped >= s.ySkipped
  {
    var rockIncr := rockIdx - f.rock;
    var yIncr := s.yMax - f.y;
    var k := (noRocks - rockIdx - (if corrected then 1 else 0)) / rockIncr;
    DivBounds(noRocks - rockIdx - (if corrected then 1 else 0), rockIncr);
    MulNonneg(k, yIncr);
    Point(s.(ySkipped := s.ySkipped + k * yIncr), rockIdx + k * rockIncr)
  }

  /** The cycle search keeps the invariant: the recorded point stays before
      the next rock, its height stays at most the top, and the skipped
      height stays non-negative. */
  lemma FoldGood(s: State, rockIdx: int, winds: seq<char>, noRocks: int, corrected: bool)
    requires Good(s) && RecordedBefore(s, rockIdx) && 0 <= rockIdx < noRocks
    ensures Good(Fold(s, rockIdx, winds, noRocks, corrected).state)
    ensures RecordedBefore(Fold(s, rockIdx, winds, noRocks, corrected).state, Fold(s, rockIdx, winds, noRocks, corrected).rockIdx + 1)
    ensures Fold(s, rockIdx, winds, noRocks, corrected).state.ySkipped >= s.ySkipped
  {
  }

  /** One pass of the loop body: rock number `rockIdx`, of shape `rockIdx`
      mod 5, settles, then the cycle search runs. The invariant holds
      after it, and neither the top nor the skipped height goes down. */
  ghost function Step(s: State, rockIdx: nat, winds: seq<char>, noRocks: int, corrected: bool): (r: Point)
    requires Good(s) && RecordedBefore(s, rockIdx) && rockIdx < noRocks
    ensures Good(r.state) && RecordedBefore(r.state, r.rockIdx + 1)
    ensures rockIdx <= r.rockIdx <= noRocks
    ensures r.state.yMax >= s.yMax && r.state.ySkipped >= s.ySkipped
  {
    RocksShaped();
    var rock := Rocks[rockIdx % 5];
    SettleGood(s, rock, winds);
    var settled := Settle(s, rock, winds);
    FoldGood(settled, rockIdx, winds, noRocks, corrected);
    Fold(settled, rockIdx, winds, noRocks, corrected)
  }

  /** The rocks from `rockIdx` on: the final state and the index at which
      the loop stops. */
  ghost function Run(s: State, rockIdx: nat, winds: seq<char>, noRocks: int, corrected: bool): Point
    requires Good(s) && RecordedBefore(s, rockIdx)
    decreases noRocks - rockIdx
  {
    if rockIdx >= noRocks then Point(s, rockIdx)
    else
      var p := Step(s, rockIdx, winds, noRocks, corrected);
      Run(p.state, p.rockIdx + 1, winds, noRocks, corrected)
  }

  /** The loop's first pass, then the rest: after the state and index
      one pass yields, the run goes on to the same end. */
  lemma RunAdvance(s: State, rockIdx: nat, s': State, rockIdx': nat, winds: seq<char>, noRocks: int, corrected: bool)
    requires Good(s) && RecordedBefore(s, rockIdx) && rockIdx < noRocks
    requires Step(s, rockIdx, winds, noRocks, corrected) == Point(s', rockIdx' - 1)
    ensures Good(s') && RecordedBefore(s', rockIdx')
    ensures Run(s, rockIdx, winds, noRocks, corrected) == Run(s', rockIdx', winds, noRocks, corrected)
  {
  }

  /** `solve`'s result: the skipped height plus the final top. */
  ghost function Height(winds: seq<char>, noRocks: int, corrected: bool): int
  {
    var s := Run(Init(), 0, winds, noRocks, corrected).state;
    s.ySkipped + s.yMax
  }

  /** The loop keeps its invariant, stops at `noRocks` or one past it, and
      never lowers the top. */
  lemma {:induction false} RunGood(s: State, rockIdx: nat, winds: seq<char>, noRocks: int, corrected: bool)
    requires Good(s) && RecordedBefore(s, rockIdx)
    ensures var p := Run(s, rockIdx, winds, noRocks, corrected);
      var s', r := p.state, p.rockIdx;
      && Good(s') && s'.yMax >= s.yMax && s'.ySkipped >= s.ySkipped
      && (rockIdx <= noRocks ==> noRocks <= r <= noRocks + 1)
      && (corrected && rockIdx <= noRocks ==> r == noRocks)
      && (rockIdx > noRocks ==> r == rockIdx)
    decreases noRocks - rockIdx
  {
    if rockIdx < noRocks {
      var p := Step(s, rockIdx, winds, noRocks, corrected);
      RunGood(p.state, p.rockIdx + 1, winds, noRocks, corrected);
    }
  }

  /** One pass of the loop body keeps `yMax` the top: settling raises it
      to the rock if need be, and the cycle search leaves grid and top
      alone. */
  lemma StepTop(s: State, rockIdx: nat, winds: seq<char>, noRocks: int, corrected: bool)
    requires Good(s) && RecordedBefore(s, rockIdx) && rockIdx < noRocks
    requires IsTop(s.cells, s.yMax)
    ensures var p := Step(s, rockIdx, winds, noRocks, corrected); IsTop(p.state.cells, p.state.yMax)
  {
    RocksShaped();
    SettleTop(s, Rocks[rockIdx % 5], winds);
  }

  /** The whole loop keeps `yMax` the top. */
  lemma {:induction false} RunTop(s: State, rockIdx: nat, winds: seq<char>, noRocks: int, corrected: bool)
    requires Good(s) && RecordedBefore(s, rockIdx) && IsTop(s.cells, s.yMax)
    ensures var p := Run(s, rockIdx, winds, noRocks, corrected); IsTop(p.state.cells, p.state.yMax)
    decreases noRocks - rockIdx
  {
    if rockIdx < noRocks {
      var p := Step(s, rockIdx, winds, noRocks, corrected);
      StepTop(s, rockIdx, winds, noRocks, corrected);
      RunAdvance(s, rockIdx, p.state, p.rockIdx + 1, winds, noRocks, corrected);
      RunTop(p.state, p.rockIdx + 1, winds, noRocks, corrected);
    }
  }

  /** `solve` returns the skipped height plus the height of the highest
      occupied cell (`grid.yMax`), which is never negative. */
  lemma HeightMeaning(winds: seq<char>, noRocks: int, corrected: bool)
    ensures var s := Run(Init(), 0, winds, noRocks, corrected).state;
      && IsTop(s.cells, s.yMax)
      && Height(winds, noRocks, corrected) == s.ySkipped + s.yMax
      && Height(winds, noRocks, corrected) >= 0
  {
    RunGood(Init(), 0, winds, noRocks, corrected);
    RunTop(Init(), 0, winds, noRocks, corrected);
  }

  /** The jets `>` alone, 11 rocks: the first point is recorded after rock 1
      (rock 0 takes 4 jets, rock 1 at least one more), the phases repeat at
      rock 6, and with 5 rocks left one cycle of 5 is skipped to index 11.
      The loop then stops at 12, having accounted for 12 rocks, not 11. */
  lemma SkipToOvershoots()
    ensures SkipTo(6, 6 - 1, 11) == 11
    ensures SkipTo(6, 5, 11) + 1 == 12
  {
  }

  /** A pass that skips onto `noRocks` itself, as `SkipTo` does above,
      ends the loop at `noRocks + 1`: the run accounts for one rock more
      than was asked for. The intended skip never lands there. */
  lemma SkipOntoLastOvershoots(s: State, rockIdx: nat, winds: seq<char>, noRocks: int, corrected: bool)
    requires Good(s) && RecordedBefore(s, rockIdx) && rockIdx < noRocks
    requires Step(s, rockIdx, winds, noRocks, corrected).rockIdx == noRocks
    ensures Run(s, rockIdx, winds, noRocks, corrected).rockIdx == noRocks + 1
    ensures !corrected
  {
    var p := Step(s, rockIdx, winds, noRocks, corrected);
    RunAdvance(s, rockIdx, p.state, noRocks + 1, winds, noRocks, corrected);
    RunGood(s, rockIdx, winds, noRocks, corrected);
  }

  /** The skip as evidently intended: whole cycles that fit in the rocks
      still to come after the current one. */
  function SkipToCorrected(rockIdx: int, rockIncr: int, noRocks: int): (r: int)
    requires 0 < rockIncr && rockIdx < noRocks
    ensures rockIdx <= r < noRocks
  {
    DivBounds(noRocks - rockIdx - 1, rockIncr);
    rockIdx + ((noRocks - rockIdx - 1) / rockIncr) * rockIncr
  }

  /** The corrected skip leaves the loop its last rock to run: it jumps a
      whole number of cycles, stays before `noRocks`, and no further cycle
      would fit. The source's skip differs from it exactly when the rocks
      left are a multiple of the cycle. */
  lemma SkipToCorrectedFits(rockIdx: int, rockIncr: int, noRocks: int)
    requires 0 < rockIncr && rockIdx < noRocks
    ensures var r := SkipToCorrected(rockIdx, rockIncr, noRocks);
      && rockIdx <= r < noRocks
      && r + rockIncr >= noRocks
      && (SkipTo(rockIdx, rockIncr, noRocks) != r <==> (noRocks - rockIdx) % rockIncr == 0)
  {
    var a := noRocks - rockIdx - 1;
    var q := a / rockIncr;
    var m := a % rockIncr;
    DivBounds(a, rockIncr);
    assert a == q * rockIncr + m;
    if m + 1 == rockIncr {
      assert a + 1 == (q + 1) * rockIncr;
      DivExact(q + 1, rockIncr);
    } else {
      DivUnique(a + 1, rockIncr, q, m + 1);
    }
  }

  lemma DivExact(q: int, b: int)
    requires q >= 0 && b > 0
    ensures (q * b) / b == q
  {
    DivUnique(q * b, b, q, 0);
  }

  lemma DivUnique(a: int, b: int, q: int, m: int)
    requires b > 0 && 0 <= m < b && a == q * b + m
    ensures a / b == q
  {
    var q' := a / b;
    var m' := a % b;
    assert a == q' * b + m';
    if q' < q {
      MulLe(q' + 1, q, b);
    } else if q' > q {
      MulLe(q + 1, q', b);
    }
  }

  lemma MulNonneg(k: int, d: int)
    requires k >= 0
    ensures d >= 0 ==> k * d >= 0
  {
    if d >= 0 {
      MulLe(0, k, d);
    }
  }

  lemma MulLe(x: int, y: int, b: int)
    requires x <= y && b >= 0
    ensures x * b <= y * b
  {
    var d := y - x;
    assert y * b == x * b + d * b;
  }

  /** The jets of one fall, as the source runs them. */
  method FallRock(cells: Cells, rock: Rock, winds: seq<char>, windIdx0: nat, yMax: int) returns (x: int, y: int, windIdx: nat)
    requires Floored(cells) && Shaped(rock) && yMax >= 0
    ensures Rest(x, y, windIdx) == Fall(cells, rock, winds, 2, yMax + 4, windIdx0)
  {
    x, y, windIdx := 2, yMax + 4, windIdx0;
    while true
      invariant InRange(rock, x) && y >= 1
      invariant Fall(cells, rock, winds, x, y, windIdx) == Fall(cells, rock, winds, 2, yMax + 4, windIdx0)
      decreases y
    {
      var dx := Dx(winds, windIdx);
      windIdx := windIdx + 1;
      var hit := WillHit(cells, rock, x + dx, y);
      if !hit {
        x := x + dx;
      }
      hit := WillHit(cells, rock, x, y - 1);
      if !hit {
        if y == 1 {
          FloorBlocks(cells, rock, x);
        }
        y := y - 1;
      } else {
        break;
      }
    }
  }

  /** The cells of rows below `ty`, and of row `ty` left of `tx`. */
  ghost function PlacedSoFar(rock: Rock, x: int, y: int, ty: int, tx: int): Cells
    requires Shaped(rock)
  {
    (set ty', tx' | 0 <= ty' < |rock| && ty' < ty && 0 <= tx' < |rock[0]| && rock[ty'][tx'] :: (x + tx', y + ty'))
    + (set tx' | 0 <= ty < |rock| && 0 <= tx' < tx && tx' < |rock[0]| && rock[ty][tx'] :: (x + tx', y + ty))
  }

  /** Marks the rock's cells, row by row. */
  method PlaceRock(cells: Cells, rock: Rock, x: int, y: int) returns (placed: Cells)
    requires Shaped(rock)
    ensures placed == cells + RockCells(rock, x, y)
  {
    placed := cells;
    var ty := 0;
    while ty < |rock|
      invariant 0 <= ty <= |rock|
      invariant placed == cells + PlacedSoFar(rock, x, y, ty, 0)
    {
      var tx := 0;
      while tx < |rock[0]|
        invariant 0 <= tx <= |rock[0]|
        invariant placed == cells + PlacedSoFar(rock, x, y, ty, tx)
      {
        if rock[ty][tx] {
          placed := placed + {(x + tx, y + ty)};
        }
        tx := tx + 1;
      }
      assert PlacedSoFar(rock, x, y, ty, |rock[0]|) == PlacedSoFar(rock, x, y, ty + 1, 0);
      ty := ty + 1;
    }
    assert PlacedSoFar(rock, x, y, |rock|, 0) == RockCells(rock, x, y);
  }

  /** The first half of the loop body: the rock falls from three rows
      above the top and its cells join the grid. */
  method DropRock(ghost s: State, cells: Cells, yMax: int, windIdx: nat, rock: Rock, winds: seq<char>)
    returns (cells': Cells, yMax': int, windIdx': nat)
    requires Good(s) && Shaped(rock)
    requires s.cells == cells && s.yMax == yMax && s.windIdx == windIdx
    ensures Settle(s, rock, winds) == State(cells', yMax', s.ySkipped, windIdx', s.reset)
  {
    var rx, ry, w := FallRock(cells, rock, winds, windIdx, yMax);
    windIdx' := w;
    cells' := PlaceRock(cells, rock, rx, ry);
    yMax' := Max2(yMax, ry + |rock| - 1);
    LandingIs(s, rock, winds);
  }

  /** The second half of the loop body: the cycle search on the sentinel
      variables, equal to `Fold` on the state they stand for. */
  method CycleCheck(ghost cells: Cells, yMax: int, ySkipped: int, windIdx: nat,
                    firstResetWind: int, firstResetRock: int, firstResetY: int,
                    rockIdx: nat, winds: seq<char>, noRocks: int)
    returns (ySkipped': int, firstResetWind': int, firstResetRock': int, firstResetY': int, rockIdx': nat)
    requires firstResetWind == -1 ==> firstResetRock == -1 && firstResetY == -1
    requires firstResetWind != -1 ==> 0 <= firstResetRock < rockIdx
    requires rockIdx < noRocks
    ensures firstResetWind' == -1 ==> firstResetRock' == -1 && firstResetY' == -1
    ensures Fold(State(cells, yMax, ySkipped, windIdx, Recorded(firstResetWind, firstResetRock, firstResetY)), rockIdx, winds, noRocks, false)
         == Point(State(cells, yMax, ySkipped', windIdx, Recorded(firstResetWind', firstResetRock', firstResetY')), rockIdx')
  {
    ySkipped', firstResetWind', firstResetRock', firstResetY', rockIdx' := ySkipped, firstResetWind, firstResetRock, firstResetY, rockIdx;
    assert |Rocks| == 5;
    if firstResetWind == -1 {
      if windIdx >= |winds| * |Rocks| {
        firstResetWind' := windIdx;
        firstResetRock' := rockIdx;
        firstResetY' := yMax;
      }
    } else if |winds| > 0 && windIdx % |winds| == firstResetWind % |winds| && rockIdx % |Rocks| == firstResetRock % |Rocks| {
      var rockIncr := rockIdx - firstResetRock;
      var yIncr := yMax - firstResetY;
      var rocksLeft := noRocks - rockIdx;
      var cyclesLeft := rocksLeft / rockIncr;
      rockIdx' := rockIdx + cyclesLeft * rockIncr;
      ySkipped' := ySkipped + cyclesLeft * yIncr;
      ghost var s := State(cells, yMax, ySkipped, windIdx, Recorded(firstResetWind, firstResetRock, firstResetY));
      assert Skip(s, rockIdx, Reset(firstResetWind, firstResetRock, firstResetY), noRocks, false)
          == Point(s.(ySkipped := ySkipped'), rockIdx');
    }
  }

  /** `solve(winds, noRocks)`. */
  method Solve(winds: seq<char>, noRocks: int) returns (height: int)
    ensures height == Height(winds, noRocks, false)
  {
    var cells: Cells := {};
    var x := 0;
    while x < Width
      invariant 0 <= x <= Width
      invariant cells == set x' | 0 <= x' < x :: (x', 0)
    {
      cells := cells + {(x, 0)};
      x := x + 1;
    }
    var yMax := 0;
    var ySkipped := 0;
    var firstResetWind, firstResetY, firstResetRock := -1, -1, -1;
    var windIdx: nat := 0;
    var rockIdx: nat := 0;
    assert cells == FloorCells();
    assert State(cells, yMax, ySkipped, windIdx, Recorded(firstResetWind, firstResetRock, firstResetY)) == Init();
    ghost var final := Run(Init(), 0, winds, noRocks, false);
    while rockIdx < noRocks
      invariant firstResetWind == -1 ==> firstResetRock == -1 && firstResetY == -1
      invariant var s := State(cells, yMax, ySkipped, windIdx, Recorded(firstResetWind, firstResetRock, firstResetY));
        && Good(s) && RecordedBefore(s, rockIdx)
        && Run(s, rockIdx, winds, noRocks, false) == final
      decreases noRocks - rockIdx
    {
      ghost var s := State(cells, yMax, ySkipped, windIdx, Recorded(firstResetWind, firstResetRock, firstResetY));
      ghost var idx := rockIdx;
      cells, yMax, ySkipped, windIdx, firstResetWind, firstResetRock, firstResetY, rockIdx :=
        Round(cells, yMax, ySkipped, windIdx, firstResetWind, firstResetRock, firstResetY, rockIdx, winds, noRocks);
      RunAdvance(s, idx, State(cells, yMax, ySkipped, windIdx, Recorded(firstResetWind, firstResetRock, firstResetY)), rockIdx, winds, noRocks, false);
    }
    HeightMeaning(winds, noRocks, false);
    height := ySkipped + yMax;
  }

  /** One pass of the loop body on the source's variables: the rock of
      shape `rockIdx` mod 5 falls and settles, then the cycle search runs;
      the new variables are `Step` of the old, with the index already
      advanced as the loop's `rockIdx++` does. */
  method Round(cells: Cells, yMax: int, ySkipped: int, windIdx: nat,
               firstResetWind: int, firstResetRock: int, firstResetY: int,
               rockIdx: nat, winds: seq<char>, noRocks: int)
    returns (cells': Cells, yMax': int, ySkipped': int, windIdx': nat,
             firstResetWind': int, firstResetRock': int, firstResetY': int, rockIdx': nat)
    requires firstResetWind == -1 ==> firstResetRock == -1 && firstResetY == -1
    requires var s := State(cells, yMax, ySkipped, windIdx, Recorded(firstResetWind, firstResetRock, firstResetY));
      Good(s) && RecordedBefore(s, rockIdx) && rockIdx < noRocks
    ensures firstResetWind' == -1 ==> firstResetRock' == -1 && firstResetY' == -1
    ensures Step(State(cells, yMax, ySkipped, windIdx, Recorded(firstResetWind, firstResetRock, firstResetY)), rockIdx, winds, noRocks, false)
         == Point(State(cells', yMax', ySkipped', windIdx', Recorded(firstResetWind', firstResetRock', firstResetY')), rockIdx' - 1)
  {
    RocksShaped();
    var rock := Rocks[rockIdx % 5];
    ghost var s := State(cells, yMax, ySkipped, windIdx, Recorded(firstResetWind, firstResetRock, firstResetY));
    cells', yMax', windIdx' := DropRock(s, cells, yMax, windIdx, rock, winds);
    var r;
    ySkipped', firstResetWind', firstResetRock', firstResetY', r :=
      CycleCheck(cells', yMax', ySkipped, windIdx', firstResetWind, firstResetRock, firstResetY, rockIdx, winds, noRocks);
    rockIdx' := r + 1;
  }

  /** The three sentinels of the source as one optional point. */
  function Recorded(wind: int, rock: int, y: int): Option<Reset>
  {
    if wind == -1 then None else Some(Reset(wind, rock, y))
  }

  /** `part1`: the height after 2022 rocks. */
  method Part1(winds: seq<char>) returns (r: int)
    ensures r == Height(winds, 2022, false) && r >= 0
  {
    r := Solve(winds, 2022);
    HeightMeaning(winds, 2022, false);
  }

  /** `part2`: the height after 10^12 rocks. */
  method Part2(winds: seq<char>) returns (r: int)
    ensures r == Height(winds, 1000000000000, false) && r >= 0
  {
    r := Solve(winds, 1000000000000);
    HeightMeaning(winds, 1000000000000, false);
  }
}
