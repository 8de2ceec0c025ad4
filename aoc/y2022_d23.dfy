// 2022 day 23: elves spreading out over an unbounded grove, round by round.
// Each elf looks at the four directions in an order that turns with the
// round, proposes a step into the first free one, and takes it when no other
// elf proposed the same cell.

module Day2022_23 {
  import opened Common

  datatype Coord = Coord(x: int, y: int)
  datatype Elf = Elf(location: Coord, target: Option<Coord>)
  datatype Dir = North | South | West | East

  // ---------------------------------------------------------------------------
  // The direction table
  // ---------------------------------------------------------------------------

  /** The order of the directions in round 0. */
  const Directions: seq<Dir> := [North, South, West, East]

  function MoveOffset(d: Dir): Coord
  {
    match d
    case North => Coord(0, -1)
    case South => Coord(0, 1)
    case West => Coord(-1, 0)
    case East => Coord(1, 0)
  }

  /** The three cells that must be empty for a step in that direction. */
  function RequirementOffsets(d: Dir): seq<Coord>
  {
    match d
    case North => [Coord(-1, -1), Coord(0, -1), Coord(1, -1)]
    case South => [Coord(-1, 1), Coord(0, 1), Coord(1, 1)]
    case West => [Coord(-1, -1), Coord(-1, 0), Coord(-1, 1)]
    case East => [Coord(1, -1), Coord(1, 0), Coord(1, 1)]
  }

  function Plus(a: Coord, b: Coord): Coord
  {
    Coord(a.x + b.x, a.y + b.y)
  }

  /** The eight cells around a cell. */
  function Neighbours(c: Coord): seq<Coord>
  {
    [ Plus(c, Coord(-1, -1)), Plus(c, Coord(0, -1)), Plus(c, Coord(1, -1)),
      Plus(c, Coord(-1, 0)), Plus(c, Coord(1, 0)),
      Plus(c, Coord(-1, 1)), Plus(c, Coord(0, 1)), Plus(c, Coord(1, 1)) ]
  }

  // ---------------------------------------------------------------------------
  // Proposals
  // ---------------------------------------------------------------------------

  /** `requirementOffsets.every(...)`: no elf on any of the direction's three cells. */
  predicate Free(grid: set<Coord>, loc: Coord, d: Dir)
  {
    forall o <- RequirementOffsets(d) :: Plus(loc, o) !in grid
  }

  /** The direction looked at k-th in a round. */
  function Considered(round: nat, k: nat): Dir
  {
    Directions[(k + round) % |Directions|]
  }

  /** The free directions among the first k looked at, in that order. */
  function ValidDirections(grid: set<Coord>, loc: Coord, round: nat, k: nat): (v: seq<Dir>)
    ensures |v| <= k
  {
    if k == 0 then []
    else
      var d := Considered(round, k - 1);
      ValidDirections(grid, loc, round, k - 1) + (if Free(grid, loc, d) then [d] else [])
  }

  /** The cell an elf proposes, if any: a step in the first free direction,
    * when some but not all four directions are free. */
  function Proposal(grid: set<Coord>, loc: Coord, round: nat): Option<Coord>
  {
    var v := ValidDirections(grid, loc, round, |Directions|);
    if |v| < |Directions| && |v| > 0 then Some(Plus(loc, MoveOffset(v[0]))) else None
  }

  /** No elf on any of the eight cells around. */
  predicate Alone(grid: set<Coord>, loc: Coord)
  {
    forall c <- Neighbours(loc) :: c !in grid
  }

  /** The first free direction from the k-th looked at on. */
  function FirstFree(grid: set<Coord>, loc: Coord, round: nat, k: nat): Option<Dir>
    decreases 4 - k
  {
    if k >= 4 then None
    else if Free(grid, loc, Considered(round, k)) then Some(Considered(round, k))
    else FirstFree(grid, loc, round, k + 1)
  }

  /** All four directions are free exactly when the eight cells around are. */
  lemma AloneIff(grid: set<Coord>, loc: Coord)
    ensures (Free(grid, loc, North) && Free(grid, loc, South) && Free(grid, loc, West) && Free(grid, loc, East))
      <==> Alone(grid, loc)
  {
    var n := Neighbours(loc);
    if Alone(grid, loc) {
      assert n[0] !in grid && n[1] !in grid && n[2] !in grid && n[3] !in grid;
      assert n[4] !in grid && n[5] !in grid && n[6] !in grid && n[7] !in grid;
    }
    if Free(grid, loc, North) && Free(grid, loc, South) && Free(grid, loc, West) && Free(grid, loc, East) {
      assert Plus(loc, RequirementOffsets(North)[0]) !in grid;
      assert Plus(loc, RequirementOffsets(North)[1]) !in grid;
      assert Plus(loc, RequirementOffsets(North)[2]) !in grid;
      assert Plus(loc, RequirementOffsets(South)[0]) !in grid;
      assert Plus(loc, RequirementOffsets(South)[1]) !in grid;
      assert Plus(loc, RequirementOffsets(South)[2]) !in grid;
      assert Plus(loc, RequirementOffsets(West)[1]) !in grid;
      assert Plus(loc, RequirementOffsets(East)[1]) !in grid;
    }
  }

  /** In every round the four looked at are the four directions. */
  lemma ConsideredAll(round: nat)
    ensures {Considered(round, 0), Considered(round, 1), Considered(round, 2), Considered(round, 3)}
      == {North, South, West, East}
  {
    var r := round % 4;
    assert (0 + round) % 4 == r;
    assert (1 + round) % 4 == (r + 1) % 4;
    assert (2 + round) % 4 == (r + 2) % 4;
    assert (3 + round) % 4 == (r + 3) % 4;
  }

  /** All k looked at are free exactly when all k are valid. */
  lemma {:induction false} ValidAll(grid: set<Coord>, loc: Coord, round: nat, k: nat)
    ensures |ValidDirections(grid, loc, round, k)| == k <==> forall j :: 0 <= j < k ==> Free(grid, loc, Considered(round, j))
  {
    if k > 0 {
      ValidAll(grid, loc, round, k - 1);
    }
  }

  /** The first free direction found is the first of the valid ones. */
  lemma {:induction false} ValidFirst(grid: set<Coord>, loc: Coord, round: nat, k: nat)
    requires k <= 4
    ensures var v := ValidDirections(grid, loc, round, k);
      |v| > 0 ==> FirstFree(grid, loc, round, 0) == Some(v[0])
    ensures |ValidDirections(grid, loc, round, k)| == 0 ==>
      FirstFree(grid, loc, round, 0) == FirstFree(grid, loc, round, k)
  {
    if k > 0 {
      ValidFirst(grid, loc, round, k - 1);
    }
  }

  /** An elf proposes exactly when it is not alone and some direction is
    * free; it proposes the step in the first free direction looked at. */
  lemma ProposalIs(grid: set<Coord>, loc: Coord, round: nat)
    ensures Proposal(grid, loc, round) ==
      if Alone(grid, loc) then None
      else match FirstFree(grid, loc, round, 0)
        case None => None
        case Some(d) => Some(Plus(loc, MoveOffset(d)))
  {
    ValidFirst(grid, loc, round, 4);
    ValidAll(grid, loc, round, 4);
    AloneIff(grid, loc);
    FreeAll(grid, loc, round);
  }

  /** The four looked at are all free exactly when the four directions are. */
  lemma FreeAll(grid: set<Coord>, loc: Coord, round: nat)
    ensures (forall j :: 0 <= j < 4 ==> Free(grid, loc, Considered(round, j)))
      <==> (Free(grid, loc, North) && Free(grid, loc, South) && Free(grid, loc, West) && Free(grid, loc, East))
  {
    ConsideredAll(round);
    if forall j :: 0 <= j < 4 ==> Free(grid, loc, Considered(round, j)) {
      var f0, f1 := Free(grid, loc, Considered(round, 0)), Free(grid, loc, Considered(round, 1));
      var f2, f3 := Free(grid, loc, Considered(round, 2)), Free(grid, loc, Considered(round, 3));
      assert f0 && f1 && f2 && f3;
    }
  }

  /** The proposed cell is free, and next to the elf. */
  lemma ProposalFree(grid: set<Coord>, loc: Coord, round: nat)
    requires Proposal(grid, loc, round).Some?
    ensures Proposal(grid, loc, round).value !in grid
    ensures Proposal(grid, loc, round).value != loc
  {
    ProposalIs(grid, loc, round);
    var d := FirstFree(grid, loc, round, 0).value;
    FirstFreeIsFree(grid, loc, round, 0);
    assert RequirementOffsets(d)[1] == MoveOffset(d);
  }

  lemma {:induction false} FirstFreeIsFree(grid: set<Coord>, loc: Coord, round: nat, k: nat)
    requires FirstFree(grid, loc, round, k).Some?
    ensures Free(grid, loc, FirstFree(grid, loc, round, k).value)
    decreases 4 - k
  {
    if k < 4 && !Free(grid, loc, Considered(round, k)) {
      FirstFreeIsFree(grid, loc, round, k + 1);
    }
  }

  /** The order of the directions turns with the round and comes back every four rounds. */
  lemma PriorityTurns(grid: set<Coord>, loc: Coord, round: nat)
    ensures Considered(round, 0) == Directions[round % 4]
    ensures Proposal(grid, loc, round + 4) == Proposal(grid, loc, round)
  {
    assert forall k :: Considered(round + 4, k) == Considered(round, k);
    ValidTurns(grid, loc, round, 4);
  }

  lemma {:induction false} ValidTurns(grid: set<Coord>, loc: Coord, round: nat, k: nat)
    ensures ValidDirections(grid, loc, round + 4, k) == ValidDirections(grid, loc, round, k)
  {
    if k > 0 {
      ValidTurns(grid, loc, round, k - 1);
      assert Considered(round + 4, k - 1) == Considered(round, k - 1);
    }
  }

  /** The loop over the four directions of the first pass. */
  method Propose(grid: set<Coord>, loc: Coord, round: nat) returns (target: Option<Coord>)
    ensures target == Proposal(grid, loc, round)
  {
    var validDirections: seq<Dir> := [];
    for dIdx := 0 to |Directions|
      invariant validDirections == ValidDirections(grid, loc, round, dIdx)
    {
      var direction := Directions[(dIdx + round) % |Directions|];
      var allFree := forall o <- RequirementOffsets(direction) :: Plus(loc, o) !in grid;
      if allFree {
        validDirections := validDirections + [direction];
      }
    }
    if |validDirections| < |Directions| && |validDirections| > 0 {
      var direction := validDirections[0];
      target := Some(Plus(loc, MoveOffset(direction)));
    } else {
      target := None;
    }
  }

  // ---------------------------------------------------------------------------
  // A round
  // ---------------------------------------------------------------------------

  /** The cells the elves stand on (the round's `grid`). */
  function Occ(elves: seq<Elf>): set<Coord>
  {
    set e | e in elves :: e.location
  }

  /** No two elves on the same cell. */
  predicate Apart(elves: seq<Elf>)
  {
    forall i, j :: 0 <= i < j < |elves| ==> elves[i].location != elves[j].location
  }

  predicate NoTargets(elves: seq<Elf>)
  {
    forall e <- elves :: e.target.None?
  }

  /** What each elf proposes in the first half of the round. */
  function Targets(elves: seq<Elf>, round: nat): (ts: seq<Option<Coord>>)
    ensures |ts| == |elves|
  {
    Proposals(elves, Occ(elves), round)
  }

  /** What each elf proposes against the cells `grid`. */
  function Proposals(elves: seq<Elf>, grid: set<Coord>, round: nat): (ts: seq<Option<Coord>>)
    ensures |ts| == |elves|
  {
    seq(|elves|, i requires 0 <= i < |elves| => Proposal(grid, elves[i].location, round))
  }

  /** `nextGrid.get(x, y, 0)`. */
  function Get0(m: map<Coord, nat>, c: Coord): nat
  {
    if c in m then m[c] else 0
  }

  /** `nextGrid`: how many elves proposed each cell. */
  function Tally(ts: seq<Option<Coord>>): map<Coord, nat>
  {
    if |ts| == 0 then map[]
    else
      var m := Tally(ts[..|ts| - 1]);
      match ts[|ts| - 1]
      case None => m
      case Some(t) => m[t := Get0(m, t) + 1]
  }

  /** Where an elf ends the round: on its target when it was the only one
    * to propose it, else where it stood. */
  function Landing(loc: Coord, target: Option<Coord>, tally: map<Coord, nat>): Coord
  {
    match target
    case Some(t) => if t in tally && tally[t] == 1 then t else loc
    case None => loc
  }

  /** The elves after a round, all targets reset. */
  function After(elves: seq<Elf>, round: nat): (r: seq<Elf>)
    ensures |r| == |elves|
    ensures NoTargets(r)
  {
    var ts := Targets(elves, round);
    Landed(elves, ts, Tally(ts))
  }

  /** The second half of a round for the proposals `ts` and their tally:
    * every elf on its landing cell, with no target. */
  function Landed(elves: seq<Elf>, ts: seq<Option<Coord>>, tally: map<Coord, nat>): (r: seq<Elf>)
    requires |ts| == |elves|
    ensures |r| == |elves|
    ensures NoTargets(r)
  {
    seq(|elves|, i requires 0 <= i < |elves| => Elf(Landing(elves[i].location, ts[i], tally), None))
  }

  /** How many elves changed cell. */
  function Moves(before: seq<Elf>, after: seq<Elf>): (n: nat)
    requires |before| == |after|
    ensures n <= |before|
  {
    MovedAmong(before, after, |before|)
  }

  /** How many of the first `n` elves changed cell. */
  function MovedAmong(before: seq<Elf>, after: seq<Elf>, n: nat): (m: nat)
    requires |before| == |after| && n <= |before|
    ensures m <= n
  {
    if n == 0 then 0
    else MovedAmong(before, after, n - 1) + (if before[n - 1].location != after[n - 1].location then 1 else 0)
  }

  /** Tallying one more proposal. */
  lemma TallySnoc(ts: seq<Option<Coord>>, i: nat)
    requires i < |ts|
    ensures var m := Tally(ts[..i]);
      Tally(ts[..i + 1]) == match ts[i] case None => m case Some(t) => m[t := Get0(m, t) + 1]
  {
    Snoc(ts, i);
  }

  /** The tally of a cell is the number of elves that proposed it. */
  lemma {:induction false} TallyCount(ts: seq<Option<Coord>>, t: Coord)
    ensures Get0(Tally(ts), t) == Count(ts, Some(t))
  {
    if |ts| > 0 {
      TallyCount(ts[..|ts| - 1], t);
    }
  }

  /** Two elves proposing one cell make its count at least two. */
  lemma {:induction false} CountTwo(ts: seq<Option<Coord>>, i: nat, j: nat)
    requires i < j < |ts| && ts[i] == ts[j]
    ensures Count(ts, ts[i]) >= 2
  {
    var n := |ts| - 1;
    if j < n {
      CountTwo(ts[..n], i, j);
    } else {
      CountOne(ts[..n], i);
    }
  }

  lemma {:induction false} CountOne(ts: seq<Option<Coord>>, i: nat)
    requires i < |ts|
    ensures Count(ts, ts[i]) >= 1
  {
    var n := |ts| - 1;
    if i < n {
      CountOne(ts[..n], i);
    }
  }

  /** An elf moves exactly when it proposed a cell that no other elf proposed. */
  lemma MovesIffAlone(elves: seq<Elf>, round: nat, i: nat)
    requires i < |elves|
    ensures var ts := Targets(elves, round);
      After(elves, round)[i].location != elves[i].location
      <==> ts[i].Some? && Count(ts, ts[i]) == 1
  {
    var ts := Targets(elves, round);
    if ts[i].Some? {
      TallyCount(ts, ts[i].value);
      ProposalFree(Occ(elves), elves[i].location, round);
    }
  }

  /** No elf proposes the cell it stands on. */
  lemma TargetsElsewhere(elves: seq<Elf>, round: nat)
    ensures var ts := Targets(elves, round);
      forall k :: 0 <= k < |elves| ==> ts[k] != Some(elves[k].location)
  {
    var ts := Targets(elves, round);
    forall k | 0 <= k < |elves| && ts[k].Some?
      ensures ts[k] != Some(elves[k].location)
    {
      ProposalFree(Occ(elves), elves[k].location, round);
    }
  }

  /** A round leaves no two elves on one cell: two elves proposing one cell
    * both stay, and a proposed cell is free, so no elf that stays is on it. */
  lemma RoundApart(elves: seq<Elf>, round: nat)
    requires Apart(elves)
    ensures Apart(After(elves, round))
  {
    var a := After(elves, round);
    var ts := Targets(elves, round);
    var grid := Occ(elves);
    forall i, j | 0 <= i < j < |a|
      ensures a[i].location != a[j].location
    {
      var mi := a[i].location != elves[i].location;
      var mj := a[j].location != elves[j].location;
      MovesIffAlone(elves, round, i);
      MovesIffAlone(elves, round, j);
      if mi && mj {
        if ts[i] == ts[j] {
          CountTwo(ts, i, j);
        }
      } else if mi {
        ProposalFree(grid, elves[i].location, round);
        assert elves[j] in elves;
      } else if mj {
        ProposalFree(grid, elves[j].location, round);
        assert elves[i] in elves;
      }
    }
  }

  /** No elf moved exactly when every elf is where it was. */
  lemma MovesZero(before: seq<Elf>, after: seq<Elf>)
    requires |before| == |after|
    ensures Moves(before, after) == 0 <==> forall i :: 0 <= i < |before| ==> before[i].location == after[i].location
  {
    MovedNone(before, after, |before|);
  }

  lemma {:induction false} MovedNone(before: seq<Elf>, after: seq<Elf>, n: nat)
    requires |before| == |after| && n <= |before|
    ensures MovedAmong(before, after, n) == 0 <==> forall i :: 0 <= i < n ==> before[i].location == after[i].location
  {
    if n > 0 {
      MovedNone(before, after, n - 1);
    }
  }

  /** Elves on distinct cells cover as many cells as there are elves. */
  lemma {:induction false} OccSize(elves: seq<Elf>)
    requires Apart(elves)
    ensures |Occ(elves)| == |elves|
  {
    if |elves| > 0 {
      var n := |elves| - 1;
      OccSize(elves[..n]);
      OccAppend(elves[..n], elves[n]);
      assert elves[..n] + [elves[n]] == elves;
      assert elves[n].location !in Occ(elves[..n]);
    }
  }

  lemma OccAppend(elves: seq<Elf>, e: Elf)
    ensures Occ(elves + [e]) == Occ(elves) + {e.location}
  {
    assert forall f :: f in elves + [e] <==> f in elves || f == e;
  }

  /** The first pass of a round: every elf's proposal, and the tally. */
  method ProposeAll(elves: seq<Elf>, grid: set<Coord>, round: nat) returns (elves': seq<Elf>, nextGrid: map<Coord, nat>)
    requires NoTargets(elves)
    ensures |elves'| == |elves|
    ensures forall k :: 0 <= k < |elves| ==> elves'[k] == elves[k].(target := Proposals(elves, grid, round)[k])
    ensures nextGrid == Tally(Proposals(elves, grid, round))
  {
    ghost var ts := Proposals(elves, grid, round);
    nextGrid := map[];
    elves' := elves;
    for i := 0 to |elves|
      invariant |elves'| == |elves|
      invariant forall k :: 0 <= k < i ==> elves'[k] == elves[k].(target := ts[k])
      invariant forall k :: i <= k < |elves| ==> elves'[k] == elves[k]
      invariant nextGrid == Tally(ts[..i])
    {
      assert elves[i] in elves;
      var target := Propose(grid, elves'[i].location, round);
      if target.Some? {
        elves' := elves'[i := elves'[i].(target := target)];
        var t := target.value;
        nextGrid := nextGrid[t := Get0(nextGrid, t) + 1];
      }
      TallySnoc(ts, i);
    }
    assert ts[..|elves|] == ts;
  }

  /** The second pass of a round for the proposals `ts`: elves whose target
    * no other elf proposed move there, every target is reset and the new
    * grid is filled. */
  method Resolve(elves: seq<Elf>, ghost ts: seq<Option<Coord>>, proposed: seq<Elf>, nextGrid: map<Coord, nat>)
    returns (elves': seq<Elf>, grid: set<Coord>, moves: nat)
    requires |ts| == |elves| && |proposed| == |elves|
    requires forall k :: 0 <= k < |elves| ==> proposed[k] == elves[k].(target := ts[k])
    requires forall k :: 0 <= k < |elves| ==> ts[k] != Some(elves[k].location)
    ensures elves' == Landed(elves, ts, nextGrid)
    ensures grid == Occ(elves')
    ensures moves == Moves(elves, elves')
  {
    ghost var fin := Landed(elves, ts, nextGrid);
    grid := {};
    moves := 0;
    elves' := proposed;
    for i := 0 to |elves|
      invariant |elves'| == |elves|
      invariant forall k :: 0 <= k < i ==> elves'[k] == fin[k]
      invariant forall k :: i <= k < |elves| ==> elves'[k] == proposed[k]
      invariant grid == Occ(fin[..i])
      invariant moves == MovedAmong(elves, fin, i)
    {
      var e, moved := ResolveOne(elves, ts, i, elves'[i], nextGrid);
      elves' := elves'[i := e];
      if moved {
        moves := moves + 1;
      }
      grid := grid + {e.location};
      OccAppend(fin[..i], fin[i]);
      Snoc(fin, i);
    }
    assert elves' == fin;
    assert fin[..|elves|] == fin;
  }

  lemma Snoc<T>(s: seq<T>, i: nat)
    requires i < |s|
    ensures s[..i + 1] == s[..i] + [s[i]] && s[..i + 1][..i] == s[..i]
  {
  }

  /** The second pass for one elf. */
  method ResolveOne(elves: seq<Elf>, ghost ts: seq<Option<Coord>>, i: nat, elf: Elf, nextGrid: map<Coord, nat>)
    returns (elf': Elf, moved: bool)
    requires |ts| == |elves| && i < |elves|
    requires elf == elves[i].(target := ts[i])
    requires ts[i] != Some(elves[i].location)
    ensures elf' == Landed(elves, ts, nextGrid)[i]
    ensures moved <==> elf'.location != elves[i].location
  {
    elf' := elf;
    moved := false;
    if elf'.target.Some? {
      var t := elf'.target.value;
      var count := if t in nextGrid then Some(nextGrid[t]) else None;
      if count == Some(1) {
        elf' := elf'.(location := t);
        moved := true;
      }
      elf' := elf'.(target := None);
    }
  }

  /** One round of `move`. */
  method Round(elves: seq<Elf>, grid: set<Coord>, round: nat) returns (elves': seq<Elf>, grid': set<Coord>, moves: nat)
    requires grid == Occ(elves) && NoTargets(elves)
    ensures elves' == After(elves, round)
    ensures grid' == Occ(elves')
    ensures moves == Moves(elves, elves')
  {
    var proposed, nextGrid := ProposeAll(elves, grid, round);
    TargetsElsewhere(elves, round);
    elves', grid', moves := Resolve(elves, Targets(elves, round), proposed, nextGrid);
  }

  // ---------------------------------------------------------------------------
  // Rounds until no elf moves
  // ---------------------------------------------------------------------------

  /** What `move` returns: the elves (moved in place in the source), the grid
    * of their cells and the number of rounds. */
  datatype Outcome = Outcome(elves: seq<Elf>, grid: set<Coord>, rounds: nat)

  /** Rounds from `round` on, until one moves no elf or the round count
    * reaches `maxRounds`; none when `fuel` rounds were not enough. */
  function Simulate(elves: seq<Elf>, round: nat, maxRounds: Option<nat>, fuel: nat): (r: Option<(seq<Elf>, nat)>)
    ensures r.Some? ==> |r.value.0| == |elves|
    decreases fuel
  {
    if fuel == 0 then None
    else
      var next := Played(elves, round, 1);
      if Moves(elves, next) == 0 || maxRounds == Some(round + 1) then Some((next, round + 1))
      else Simulate(next, round + 1, maxRounds, fuel - 1)
  }

  /** A round, `After`, reached through a countdown of `hold` so that
    * reasoning about many rounds unfolds one only where it is asked for. */
  function Played(elves: seq<Elf>, round: nat, hold: nat): (r: seq<Elf>)
    ensures |r| == |elves|
    ensures NoTargets(r)
  {
    if hold == 0 then After(elves, round) else Played(elves, round, hold - 1)
  }

  lemma PlayedIsAfter(elves: seq<Elf>, round: nat)
    ensures Played(elves, round, 1) == After(elves, round)
  {
  }

  /** A round only looks at where the elves stand. */
  lemma AfterLocations(a: seq<Elf>, b: seq<Elf>, round: nat)
    requires |a| == |b|
    requires forall i :: 0 <= i < |a| ==> a[i].location == b[i].location
    ensures After(a, round) == After(b, round)
  {
    assert Occ(a) == Occ(b) by {
      forall c | c in Occ(a) ensures c in Occ(b) {
        var e :| e in a && e.location == c;
        var i :| 0 <= i < |a| && a[i] == e;
        assert b[i] in b;
      }
      forall c | c in Occ(b) ensures c in Occ(a) {
        var e :| e in b && e.location == c;
        var i :| 0 <= i < |b| && b[i] == e;
        assert a[i] in a;
      }
    }
    assert Targets(a, round) == Targets(b, round);
  }

  /** One round keeps the elves on distinct cells. */
  lemma PlayedApart(elves: seq<Elf>, round: nat)
    requires Apart(elves)
    ensures Apart(Played(elves, round, 1))
  {
    PlayedIsAfter(elves, round);
    RoundApart(elves, round);
  }

  /** Elves on distinct cells stay on distinct cells, and as many cells are
    * taken as there are elves, however many rounds are played. */
  lemma {:induction false} SimulateApart(elves: seq<Elf>, round: nat, maxRounds: Option<nat>, fuel: nat)
    requires Apart(elves)
    requires Simulate(elves, round, maxRounds, fuel).Some?
    ensures var e := Simulate(elves, round, maxRounds, fuel).value.0;
      |e| == |elves| && Apart(e) && |Occ(e)| == |elves|
    decreases fuel
  {
    var next := Played(elves, round, 1);
    PlayedApart(elves, round);
    if Moves(elves, next) == 0 || maxRounds == Some(round + 1) {
      OccSize(next);
    } else {
      SimulateApart(next, round + 1, maxRounds, fuel - 1);
    }
  }

  /** That round, played from these cells, moves no elf. */
  predicate Still(elves: seq<Elf>, round: nat)
  {
    Moves(elves, Played(elves, round, 1)) == 0
  }

  /** After a round that moved no elf, the same round from the new cells
    * moves no elf either. */
  lemma Settled(elves: seq<Elf>, round: nat)
    requires Moves(elves, Played(elves, round, 1)) == 0
    ensures Still(Played(elves, round, 1), round)
  {
    var next := Played(elves, round, 1);
    PlayedIsAfter(elves, round);
    PlayedIsAfter(next, round);
    MovesZero(elves, next);
    AfterLocations(next, elves, round);
    MovesZero(next, next);
  }

  /** `move` plays at least one round, and no more than `maxRounds`. */
  lemma {:induction false} SimulateRounds(elves: seq<Elf>, round: nat, maxRounds: Option<nat>, fuel: nat)
    requires Simulate(elves, round, maxRounds, fuel).Some?
    ensures round < Simulate(elves, round, maxRounds, fuel).value.1
    ensures maxRounds.Some? && round < maxRounds.value ==>
      Simulate(elves, round, maxRounds, fuel).value.1 <= maxRounds.value
    decreases fuel
  {
    var next := Played(elves, round, 1);
    if !(Moves(elves, next) == 0 || maxRounds == Some(round + 1)) {
      SimulateRounds(next, round + 1, maxRounds, fuel - 1);
    }
  }

  /** `move` stops after the round that reaches `maxRounds`, or else after a
    * round that moved no elf: from the final cells, that round moves no elf
    * again. */
  lemma {:induction false} SimulateStops(elves: seq<Elf>, round: nat, maxRounds: Option<nat>, fuel: nat)
    requires Simulate(elves, round, maxRounds, fuel).Some?
    ensures var r := Simulate(elves, round, maxRounds, fuel).value;
      maxRounds == Some(r.1) || (r.1 >= 1 && Still(r.0, r.1 - 1))
    decreases fuel
  {
    var next := Played(elves, round, 1);
    if Moves(elves, next) == 0 || maxRounds == Some(round + 1) {
      if maxRounds != Some(round + 1) {
        Settled(elves, round);
      }
    } else {
      SimulateStops(next, round + 1, maxRounds, fuel - 1);
    }
  }

  /** With a round cap, enough fuel for the capped rounds always gives an outcome. */
  lemma {:induction false} SimulateCapped(elves: seq<Elf>, round: nat, maxRounds: nat, fuel: nat)
    requires round < maxRounds <= round + fuel
    ensures Simulate(elves, round, Some(maxRounds), fuel).Some?
    decreases fuel
  {
    var next := Played(elves, round, 1);
    if !(Moves(elves, next) == 0 || maxRounds == round + 1) {
      SimulateCapped(next, round + 1, maxRounds, fuel - 1);
    }
  }

  /** `move`: the grid of the elves, then rounds while elves move. */
  method Move(elves: seq<Elf>, maxRounds: Option<nat>, fuel: nat) returns (outcome: Option<Outcome>)
    requires NoTargets(elves)
    ensures outcome.None? <==> Simulate(elves, 0, maxRounds, fuel).None?
    ensures outcome.Some? ==>
      && (outcome.value.elves, outcome.value.rounds) == Simulate(elves, 0, maxRounds, fuel).value
      && outcome.value.grid == Occ(outcome.value.elves)
  {
    var grid: set<Coord> := {};
    for i := 0 to |elves|
      invariant grid == Occ(elves[..i])
    {
      OccAppend(elves[..i], elves[i]);
      Snoc(elves, i);
      grid := grid + {elves[i].location};
    }
    assert elves[..|elves|] == elves;
    var current := elves;
    var round := 0;
    var left := fuel;
    while left > 0
      invariant grid == Occ(current) && NoTargets(current)
      invariant Simulate(current, round, maxRounds, left) == Simulate(elves, 0, maxRounds, fuel)
    {
      var next, nextGrid, moves := Round(current, grid, round);
      PlayedIsAfter(current, round);
      round := round + 1;
      if moves == 0 || (maxRounds.Some? && round == maxRounds.value) {
        return Some(Outcome(next, nextGrid, round));
      }
      current, grid := next, nextGrid;
      left := left - 1;
    }
    return None;
  }

  // ---------------------------------------------------------------------------
  // The answers
  // ---------------------------------------------------------------------------

  datatype Box = Box(xmin: int, xmax: int, ymin: int, ymax: int)

  /** The smallest rectangle holding every elf. */
  function Bounds(elves: seq<Elf>): (b: Box)
    requires |elves| > 0
    ensures forall e <- elves :: b.xmin <= e.location.x <= b.xmax && b.ymin <= e.location.y <= b.ymax
    ensures exists e <- elves :: e.location.x == b.xmin
    ensures exists e <- elves :: e.location.x == b.xmax
    ensures exists e <- elves :: e.location.y == b.ymin
    ensures exists e <- elves :: e.location.y == b.ymax
  {
    var c := elves[|elves| - 1].location;
    if |elves| == 1 then Box(c.x, c.x, c.y, c.y)
    else
      var b := Bounds(elves[..|elves| - 1]);
      assert forall e <- elves[..|elves| - 1] :: e in elves;
      Box(if c.x < b.xmin then c.x else b.xmin, if c.x > b.xmax then c.x else b.xmax,
          if c.y < b.ymin then c.y else b.ymin, if c.y > b.ymax then c.y else b.ymax)
  }

  function Area(b: Box): int
  {
    (b.xmax - b.xmin + 1) * (b.ymax - b.ymin + 1)
  }

  /** The cells of a rectangle, column by column. */
  function Cells(b: Box): set<Coord>
    decreases b.xmax - b.xmin
  {
    if b.xmax < b.xmin then {} else Cells(b.(xmax := b.xmax - 1)) + Column(b.xmax, b.ymin, b.ymax)
  }

  function Column(x: int, ylo: int, yhi: int): set<Coord>
    decreases yhi - ylo
  {
    if yhi < ylo then {} else Column(x, ylo, yhi - 1) + {Coord(x, yhi)}
  }

  lemma {:induction false} InColumn(x: int, ylo: int, yhi: int, c: Coord)
    ensures c in Column(x, ylo, yhi) <==> c.x == x && ylo <= c.y <= yhi
    decreases yhi - ylo
  {
    if ylo <= yhi {
      InColumn(x, ylo, yhi - 1, c);
    }
  }

  lemma {:induction false} InCells(b: Box, c: Coord)
    ensures c in Cells(b) <==> b.xmin <= c.x <= b.xmax && b.ymin <= c.y <= b.ymax
    decreases b.xmax - b.xmin
  {
    if b.xmin <= b.xmax {
      InCells(b.(xmax := b.xmax - 1), c);
      InColumn(b.xmax, b.ymin, b.ymax, c);
    }
  }

  lemma {:induction false} ColumnSize(x: int, ylo: int, yhi: int)
    requires ylo <= yhi + 1
    ensures |Column(x, ylo, yhi)| == yhi - ylo + 1
    decreases yhi - ylo
  {
    if ylo <= yhi {
      ColumnSize(x, ylo, yhi - 1);
      InColumn(x, ylo, yhi - 1, Coord(x, yhi));
    }
  }

  /** A rectangle has as many cells as its area. */
  lemma {:induction false} CellsSize(b: Box)
    requires b.xmin <= b.xmax + 1 && b.ymin <= b.ymax + 1
    ensures |Cells(b)| == Area(b)
    decreases b.xmax - b.xmin
  {
    if b.xmin <= b.xmax {
      var b' := b.(xmax := b.xmax - 1);
      var col := Column(b.xmax, b.ymin, b.ymax);
      CellsSize(b');
      ColumnSize(b.xmax, b.ymin, b.ymax);
      ColumnApart(b);
      AreaStep(b);
    }
  }

  /** A rectangle's last column shares no cell with the columns before it. */
  lemma ColumnApart(b: Box)
    requires b.xmin <= b.xmax
    ensures Cells(b.(xmax := b.xmax - 1)) * Column(b.xmax, b.ymin, b.ymax) == {}
  {
    var b' := b.(xmax := b.xmax - 1);
    forall c | c in Column(b.xmax, b.ymin, b.ymax)
      ensures c !in Cells(b')
    {
      InColumn(b.xmax, b.ymin, b.ymax, c);
      InCells(b', c);
    }
  }

  lemma AreaStep(b: Box)
    ensures Area(b) == Area(b.(xmax := b.xmax - 1)) + (b.ymax - b.ymin + 1)
  {
    var h := b.ymax - b.ymin + 1;
    assert (b.xmax - b.xmin + 1) * h == (b.xmax - 1 - b.xmin + 1) * h + h;
  }

  /** `part1`'s number, the rectangle's area less the elves, counts the
    * empty cells of the smallest rectangle holding the elves. */
  lemma EmptyGround(elves: seq<Elf>)
    requires |elves| > 0 && Apart(elves)
    ensures Area(Bounds(elves)) - |elves| == |Cells(Bounds(elves)) - Occ(elves)|
  {
    var b := Bounds(elves);
    CellsSize(b);
    OccSize(elves);
    var occ := Occ(elves);
    var cells := Cells(b);
    forall c | c in occ
      ensures c in cells
    {
      var e :| e in elves && e.location == c;
      InCells(b, c);
    }
    assert cells == (cells - occ) + occ;
  }

  /** Part 1's answer after `rounds` capped rounds (the puzzle asks for ten):
    * the rectangle's area less the number of elves; none without elves. */
  function Grounded(elves: seq<Elf>, rounds: nat): Option<int>
  {
    Spread(Simulate(elves, 0, Some(rounds), rounds), |elves|)
  }

  /** The area of the elves' rectangle less `n`; none without a simulation
    * or without elves. */
  function Spread(sim: Option<(seq<Elf>, nat)>, n: int): Option<int>
  {
    match sim
    case None => None
    case Some((e, _)) => if |e| == 0 then None else Some(Area(Bounds(e)) - n)
  }

  /** With elves on distinct cells, part 1's answer is the number of empty
    * cells in the smallest rectangle holding the elves after the rounds. */
  lemma GroundedCounts(elves: seq<Elf>, rounds: nat)
    requires |elves| > 0 && Apart(elves) && rounds >= 1
    ensures Simulate(elves, 0, Some(rounds), rounds).Some?
    ensures var e := Simulate(elves, 0, Some(rounds), rounds).value.0;
      Grounded(elves, rounds) == Some(|Cells(Bounds(e)) - Occ(e)|)
  {
    SimulateCapped(elves, 0, rounds, rounds);
    SimulateApart(elves, 0, Some(rounds), rounds);
    EmptyGround(Simulate(elves, 0, Some(rounds), rounds).value.0);
  }

  /** `part1`: ten rounds, then the rectangle's area less the elves. */
  method Part1(elves: seq<Elf>) returns (result: Option<int>)
    requires NoTargets(elves)
    ensures result == Grounded(elves, 10)
  {
    result := Spreading(elves, 10);
  }

  /** The rounds of `part1`, then the area of the grid's extent less the elves. */
  method Spreading(elves: seq<Elf>, rounds: nat) returns (result: Option<int>)
    requires NoTargets(elves)
    ensures result == Grounded(elves, rounds)
  {
    var outcome := Move(elves, Some(rounds), rounds);
    if outcome.None? {
      return None;
    }
    var moved := outcome.value.elves;
    if |moved| == 0 {
      return None;
    }
    var b := Bounds(moved);
    result := Some(Area(b) - |elves|);
  }

  /** Part 2: the first round in which no elf moves; none when `fuel` rounds
    * were not enough. */
  method Part2(elves: seq<Elf>, fuel: nat) returns (result: Option<nat>)
    requires NoTargets(elves)
    ensures result.Some? <==> Simulate(elves, 0, None, fuel).Some?
    ensures result.Some? ==> result.value == Simulate(elves, 0, None, fuel).value.1
  {
    var outcome := Move(elves, None, fuel);
    if outcome.None? {
      return None;
    }
    result := Some(outcome.value.rounds);
  }
}
