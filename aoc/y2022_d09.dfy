/** 2022 day 9: a rope of knots on an unbounded grid. The head steps in a
    direction and every following knot catches up with the one in front of
    it; the answer is the number of cells the last knot has visited. A
    visited cell is recorded in the source as its string "(x, y)", which
    is one-to-one, so the model records the pair itself. */
module Day2022_09 {
  import opened Common

  type Pos = (int, int)

  /** `Coordinate.fromDirection`: the unit step of a direction letter. */
  function FromDirection(direction: string): (r: Result<Pos>)
    ensures r.Success? <==> direction in ["R", "L", "U", "D"]
    ensures r.Success? ==> Abs(r.value.0) + Abs(r.value.1) == 1
  {
    if direction == "R" then Success((1, 0))
    else if direction == "L" then Success((-1, 0))
    else if direction == "U" then Success((0, 1))
    else if direction == "D" then Success((0, -1))
    else Failure("Unexpected direction: " + direction)
  }

  /** `Coordinate.move`. */
  function Add(p: Pos, diff: Pos): Pos
  {
    (p.0 + diff.0, p.1 + diff.1)
  }

  /** Two knots within one cell of each other on both axes (Chebyshev
      distance at most 1). */
  predicate Touching(a: Pos, b: Pos)
  {
    Abs(a.0 - b.0) <= 1 && Abs(a.1 - b.1) <= 1
  }

  /** Two knots within two cells of each other on both axes. */
  predicate Near(a: Pos, b: Pos)
  {
    Abs(a.0 - b.0) <= 2 && Abs(a.1 - b.1) <= 2
  }

  /** Every knot touches the next one, except possibly knot `k` and knot
      `k + 1`. */
  ghost predicate TouchingExcept(knots: seq<Pos>, k: int)
  {
    forall i :: 0 <= i < |knots| - 1 && i != k ==> Touching(knots[i], knots[i + 1])
  }

  ghost predicate AllTouching(knots: seq<Pos>)
  {
    TouchingExcept(knots, -1)
  }

  /** The knots, and the cells the last knot has been recorded at. */
  datatype RopeState = RopeState(knots: seq<Pos>, visits: set<Pos>)

  function Last(knots: seq<Pos>): Pos
    requires knots != []
  {
    knots[|knots| - 1]
  }

  /** A rope of `knotCount` knots at the origin, the origin recorded. */
  function Initial(knotCount: nat): (s: RopeState)
    requires knotCount > 0
    ensures |s.knots| == knotCount && AllTouching(s.knots) && Last(s.knots) in s.visits
  {
    RopeState(seq(knotCount, _ => (0, 0)), {(0, 0)})
  }

  /** `catchup(knotNo)`: the last knot records its cell; any other knot
      that no longer touches the next one pulls it one cell along the sign
      of each axis difference, and the pull goes on down the rope. */
  function CatchupState(s: RopeState, k: nat): RopeState
    requires k < |s.knots|
    decreases |s.knots| - k
  {
    if k + 1 == |s.knots| then RopeState(s.knots, s.visits + {s.knots[k]})
    else
      var knot := s.knots[k];
      var next := s.knots[k + 1];
      var xDiff := knot.0 - next.0;
      var yDiff := knot.1 - next.1;
      if Abs(xDiff) <= 1 && Abs(yDiff) <= 1 then s
      else CatchupState(RopeState(s.knots[k + 1 := Add(next, (Sign(xDiff), Sign(yDiff)))], s.visits), k + 1)
  }

  /** One step of the head, then the catch-up from the head. */
  function StepState(s: RopeState, diff: Pos): RopeState
    requires s.knots != []
  {
    CatchupState(RopeState(s.knots[0 := Add(s.knots[0], diff)], s.visits), 0)
  }

  lemma {:induction false} CatchupKeepsLength(s: RopeState, k: nat)
    requires k < |s.knots|
    ensures |CatchupState(s, k).knots| == |s.knots|
    ensures s.visits <= CatchupState(s, k).visits
    decreases |s.knots| - k
  {
    if k + 1 < |s.knots| {
      var knot := s.knots[k];
      var next := s.knots[k + 1];
      if !(Abs(knot.0 - next.0) <= 1 && Abs(knot.1 - next.1) <= 1) {
        var moved := Add(next, (Sign(knot.0 - next.0), Sign(knot.1 - next.1)));
        CatchupKeepsLength(RopeState(s.knots[k + 1 := moved], s.visits), k + 1);
      }
    }
  }

  /** Pulling a knot that is within two cells makes it touch the knot in
      front, and moves it at most one cell on each axis. */
  lemma PullTouches(knot: Pos, next: Pos)
    requires Near(knot, next)
    ensures var moved := Add(next, (Sign(knot.0 - next.0), Sign(knot.1 - next.1)));
      Touching(knot, moved) && Touching(next, moved)
  {
  }

  /** A knot that moved at most one cell on each axis stays within two
      cells of a knot it touched. */
  lemma TouchingThenNear(a: Pos, a': Pos, b: Pos)
    requires Touching(a, b) && Touching(a, a')
    ensures Near(a', b)
  {
  }

  /** Catch-up from knot `k`, when only knot `k` may be up to two cells
      from the next one, leaves every knot touching the next. */
  lemma {:induction false} CatchupRestoresTouching(s: RopeState, k: nat)
    requires k < |s.knots|
    requires TouchingExcept(s.knots, k)
    requires k + 1 < |s.knots| ==> Near(s.knots[k], s.knots[k + 1])
    ensures AllTouching(CatchupState(s, k).knots)
    decreases |s.knots| - k
  {
    if k + 1 < |s.knots| {
      var knot := s.knots[k];
      var next := s.knots[k + 1];
      if !(Abs(knot.0 - next.0) <= 1 && Abs(knot.1 - next.1) <= 1) {
        var moved := Add(next, (Sign(knot.0 - next.0), Sign(knot.1 - next.1)));
        var knots' := s.knots[k + 1 := moved];
        PullTouches(knot, next);
        if k + 2 < |s.knots| {
          TouchingThenNear(next, moved, s.knots[k + 2]);
        }
        CatchupRestoresTouching(RopeState(knots', s.visits), k + 1);
      }
    }
  }

  /** Catch-up leaves the last knot on a recorded cell. */
  lemma {:induction false} CatchupRecordsTail(s: RopeState, k: nat)
    requires k < |s.knots|
    requires k + 1 < |s.knots| ==> Last(s.knots) in s.visits
    ensures CatchupState(s, k).knots != [] && Last(CatchupState(s, k).knots) in CatchupState(s, k).visits
    decreases |s.knots| - k
  {
    CatchupKeepsLength(s, k);
    if k + 1 < |s.knots| {
      var knot := s.knots[k];
      var next := s.knots[k + 1];
      if !(Abs(knot.0 - next.0) <= 1 && Abs(knot.1 - next.1) <= 1) {
        var moved := Add(next, (Sign(knot.0 - next.0), Sign(knot.1 - next.1)));
        CatchupRecordsTail(RopeState(s.knots[k + 1 := moved], s.visits), k + 1);
      }
    }
  }

  /** A rope is well formed: knots touch and the last knot's cell is
      recorded. */
  ghost predicate ValidState(s: RopeState)
  {
    s.knots != [] && AllTouching(s.knots) && Last(s.knots) in s.visits
  }

  /** After a unit step of the head and its catch-up, every knot touches
      the next again, the last knot's cell is recorded, and no recorded
      cell is lost. */
  lemma StepKeepsValid(s: RopeState, diff: Pos)
    requires ValidState(s) && Abs(diff.0) + Abs(diff.1) == 1
    ensures |StepState(s, diff).knots| == |s.knots|
    ensures ValidState(StepState(s, diff))
    ensures s.visits <= StepState(s, diff).visits
  {
    var moved := RopeState(s.knots[0 := Add(s.knots[0], diff)], s.visits);
    CatchupKeepsLength(moved, 0);
    if |s.knots| > 1 {
      TouchingThenNear(s.knots[0], moved.knots[0], s.knots[1]);
    }
    CatchupRestoresTouching(moved, 0);
    CatchupRecordsTail(moved, 0);
  }

  /** `steps` steps of the head in direction `diff`. */
  function MoveState(s: RopeState, diff: Pos, steps: int): RopeState
    requires s.knots != []
    ensures |MoveState(s, diff, steps).knots| == |s.knots|
    decreases steps
  {
    if steps <= 0 then s
    else
      var before := MoveState(s, diff, steps - 1);
      CatchupKeepsLength(RopeState(before.knots[0 := Add(before.knots[0], diff)], before.visits), 0);
      StepState(before, diff)
  }

  lemma {:induction false} MoveKeepsValid(s: RopeState, diff: Pos, steps: int)
    requires ValidState(s) && Abs(diff.0) + Abs(diff.1) == 1
    ensures ValidState(MoveState(s, diff, steps))
    ensures s.visits <= MoveState(s, diff, steps).visits
    decreases steps
  {
    if steps > 0 {
      MoveKeepsValid(s, diff, steps - 1);
      StepKeepsValid(MoveState(s, diff, steps - 1), diff);
    }
  }

  datatype Move = Move(direction: string, steps: int)

  /** Every move in order; an unknown direction throws. */
  function RunMoves(s: RopeState, moves: seq<Move>): Result<RopeState>
    requires s.knots != []
    decreases |moves|
  {
    if moves == [] then Success(s)
    else match FromDirection(moves[0].direction)
      case Failure(m) => Failure(m)
      case Success(diff) => RunMoves(MoveState(s, diff, moves[0].steps), moves[1..])
  }

  /** Running moves keeps the rope well formed and never forgets a cell. */
  lemma {:induction false} RunKeepsValid(s: RopeState, moves: seq<Move>)
    requires ValidState(s)
    ensures RunMoves(s, moves).Success? ==>
      ValidState(RunMoves(s, moves).value) && s.visits <= RunMoves(s, moves).value.visits
    decreases |moves|
  {
    if moves != [] {
      var d := FromDirection(moves[0].direction);
      if d.Success? {
        MoveKeepsValid(s, d.value, moves[0].steps);
        RunKeepsValid(MoveState(s, d.value, moves[0].steps), moves[1..]);
      }
    }
  }

  /** The rope of the source: its knots and the set of tail cells. */
  class Rope {
    var knots: seq<Pos>
    var tailVisits: set<Pos>

    function State(): RopeState
      reads this
    {
      RopeState(knots, tailVisits)
    }

    constructor(knotCount: int)
      requires knotCount > 0
      ensures State() == Initial(knotCount)
    {
      knots := seq(knotCount, _ => (0, 0));
      tailVisits := {(0, 0)};
    }

    method Catchup(knotNo: nat)
      requires knotNo < |knots|
      modifies this
      ensures State() == CatchupState(old(State()), knotNo)
      decreases |knots| - knotNo
    {
      var knot := knots[knotNo];
      if knotNo + 1 == |knots| {
        tailVisits := tailVisits + {knot};
        return;
      }
      var nextKnot := knots[knotNo + 1];
      var xDiff := knot.0 - nextKnot.0;
      var yDiff := knot.1 - nextKnot.1;
      var move := (Sign(xDiff), Sign(yDiff));
      if Abs(xDiff) <= 1 && Abs(yDiff) <= 1 {
        return;
      }
      knots := knots[knotNo + 1 := Add(nextKnot, move)];
      Catchup(knotNo + 1);
    }

    /** `move`: an unknown direction throws before anything changes. */
    method Move(move: Move) returns (r: Result<()>)
      requires knots != []
      modifies this
      ensures r.Success? <==> FromDirection(move.direction).Success?
      ensures r.Success? ==> State() == MoveState(old(State()), FromDirection(move.direction).value, move.steps)
      ensures r.Failure? ==> State() == old(State())
    {
      var stepMove := FromDirection(move.direction);
      if stepMove.Failure? {
        return Failure(stepMove.message);
      }
      var s := 0;
      while s < move.steps
        invariant (s == 0 || s <= move.steps) && 0 <= s
        invariant knots != []
        invariant State() == MoveState(old(State()), stepMove.value, s)
      {
        ghost var before := State();
        knots := knots[0 := Add(knots[0], stepMove.value)];
        CatchupKeepsLength(State(), 0);
        Catchup(0);
        assert State() == StepState(before, stepMove.value);
        s := s + 1;
      }
      return Success(());
    }
  }

  /** `part1` (two knots) and `part2` (ten knots): the number of cells the
      tail visited. */
  method CountTailVisits(knotCount: int, moves: seq<Move>) returns (r: Result<nat>)
    requires knotCount > 0
    ensures RunMoves(Initial(knotCount), moves).Success? <==> r.Success?
    ensures r.Success? ==> r.value == |RunMoves(Initial(knotCount), moves).value.visits|
  {
    var grid := new Rope(knotCount);
    var i := 0;
    while i < |moves|
      invariant 0 <= i <= |moves| && grid.knots != []
      invariant RunMoves(Initial(knotCount), moves) == RunMoves(grid.State(), moves[i..])
    {
      var ok := grid.Move(moves[i]);
      if ok.Failure? {
        return Failure(ok.message);
      }
      assert moves[i..][1..] == moves[i + 1..];
      i := i + 1;
    }
    return Success(|grid.tailVisits|);
  }

  /** The tail's start cell is always counted, so the answer is positive. */
  lemma VisitsAtLeastOne(knotCount: nat, moves: seq<Move>)
    requires knotCount > 0 && RunMoves(Initial(knotCount), moves).Success?
    ensures (0, 0) in RunMoves(Initial(knotCount), moves).value.visits
    ensures |RunMoves(Initial(knotCount), moves).value.visits| >= 1
  {
    RunKeepsValid(Initial(knotCount), moves);
  }
}
