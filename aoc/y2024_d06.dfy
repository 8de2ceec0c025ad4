/** 2024 day 6: a guard walks a lab: forward while the cell ahead is free,
    a quarter turn right in place when it holds an obstacle, until the next
    step leaves the map. Part 1 counts the distinct positions the guard
    occupies. */
module Day2024_06 {
  import opened Common

  type Position = (int, int)

  /** The guard: a position (row, column) and the character read for its
    * direction, one of "^<>v" on a well-formed map. */
  datatype Guard = Guard(position: Position, direction: char)

  // ---------------------------------------------------------------------------
  // loadInput
  // ---------------------------------------------------------------------------

  predicate IsGuardChar(ch: char)
  {
    ch != '.' && ch != '#'
  }

  /** The map with the guard's cell shown free. */
  function Cleared(line: string): (row: string)
    ensures |row| == |line|
    ensures forall c :: 0 <= c < |line| ==> row[c] == if IsGuardChar(line[c]) then '.' else line[c]
  {
    seq(|line|, c requires 0 <= c < |line| => if IsGuardChar(line[c]) then '.' else line[c])
  }

  /** Cell (r, c) comes after cell (r', c') in reading order. */
  predicate After(r: int, c: int, r': int, c': int)
  {
    r > r' || (r == r' && c > c')
  }

  /** The guard's cell: the last one, in reading order, holding neither '.'
    * nor '#'. */
  ghost predicate IsLastGuard(lines: seq<string>, g: Guard)
  {
    && 0 <= g.position.0 < |lines| && 0 <= g.position.1 < |lines[g.position.0]|
    && g.direction == lines[g.position.0][g.position.1] && IsGuardChar(g.direction)
    && forall r, c :: 0 <= r < |lines| && 0 <= c < |lines[r]| && After(r, c, g.position.0, g.position.1) ==> !IsGuardChar(lines[r][c])
  }

  /** `loadInput` on the non-empty lines: every guard character read
    * replaces the one before and is shown as '.'; the `assert` fails when
    * there is none. */
  method LoadInput(lines: seq<string>) returns (r: Result<(seq<string>, Guard)>)
    ensures r.Success? ==> |r.value.0| == |lines| && (forall k :: 0 <= k < |lines| ==> r.value.0[k] == Cleared(lines[k]))
    ensures r.Success? ==> IsLastGuard(lines, r.value.1)
    ensures r.Failure? <==> forall k, c :: 0 <= k < |lines| && 0 <= c < |lines[k]| ==> !IsGuardChar(lines[k][c])
  {
    var grid: seq<string> := [];
    var guard: Option<Guard> := None;
    for k := 0 to |lines|
      invariant |grid| == k && forall j :: 0 <= j < k ==> grid[j] == Cleared(lines[j])
      invariant guard.None? <==> forall j, c :: 0 <= j < k && 0 <= c < |lines[j]| ==> !IsGuardChar(lines[j][c])
      invariant guard.Some? ==> IsLastGuard(lines[..k], guard.value)
    {
      var line := lines[k];
      var row: string := [];
      for c := 0 to |line|
        invariant row == Cleared(line[..c])
        invariant guard.None? <==>
          (forall j, c' :: 0 <= j < k && 0 <= c' < |lines[j]| ==> !IsGuardChar(lines[j][c'])) && (forall c' :: 0 <= c' < c ==> !IsGuardChar(line[c']))
        invariant guard.Some? ==> IsLastGuard(lines[..k] + [line[..c]], guard.value)
      {
        ghost var seen := lines[..k] + [line[..c]];
        ghost var seen' := lines[..k] + [line[..c + 1]];
        assert line[..c + 1] == line[..c] + [line[c]];
        if IsGuardChar(line[c]) {
          guard := Some(Guard((k, c), line[c]));
          row := row + ['.'];
        } else {
          row := row + [line[c]];
          if guard.Some? {
            LastGuardGrows(seen, seen', guard.value);
          }
        }
      }
      assert line[..|line|] == line;
      assert lines[..k] + [line] == lines[..k + 1];
      grid := grid + [row];
    }
    assert lines[..|lines|] == lines;
    if guard.None? {
      return Failure("no guard");
    }
    return Success((grid, guard.value));
  }

  /** A guard stays the last one when the cells read after it are free or
    * obstacles. */
  lemma LastGuardGrows(seen: seq<string>, seen': seq<string>, g: Guard)
    requires |seen| == |seen'| > 0 && IsLastGuard(seen, g)
    requires forall j :: 0 <= j < |seen| - 1 ==> seen'[j] == seen[j]
    requires seen[|seen| - 1] <= seen'[|seen| - 1] && |seen'[|seen| - 1]| == |seen[|seen| - 1]| + 1
    requires !IsGuardChar(seen'[|seen| - 1][|seen[|seen| - 1]|])
    ensures IsLastGuard(seen', g)
  {
    var last := |seen| - 1;
    forall r, c | 0 <= r < |seen'| && 0 <= c < |seen'[r]| && After(r, c, g.position.0, g.position.1)
      ensures !IsGuardChar(seen'[r][c])
    {
      if r == last && c < |seen[last]| {
        assert seen'[r][c] == seen[r][c];
      }
    }
  }

  // ---------------------------------------------------------------------------
  // The walk
  // ---------------------------------------------------------------------------

  /** The position the guard faces: one step in its direction; a character
    * other than "^<>v" moves nowhere. */
  function Ahead(g: Guard): Position
  {
    var (r, c) := g.position;
    match g.direction
    case '^' => (r - 1, c)
    case '<' => (r, c - 1)
    case '>' => (r, c + 1)
    case 'v' => (r + 1, c)
    case _ => (r, c)
  }

  /** A quarter turn right: ^ to >, > to v, v to <, < to ^. */
  function TurnRight(direction: char): char
  {
    match direction
    case '^' => '>'
    case '<' => '^'
    case '>' => 'v'
    case 'v' => '<'
    case _ => direction
  }

  /** The step ahead leaves the map, whose width is the first row's. */
  predicate Leaves(grid: seq<string>, g: Guard)
  {
    var (r, c) := Ahead(g);
    r < 0 || r >= |grid| || c < 0 || c >= |grid[0]|
  }

  predicate Obstacle(grid: seq<string>, p: Position)
    requires 0 <= p.0 < |grid|
  {
    0 <= p.1 < |grid[p.0]| && grid[p.0][p.1] == '#'
  }

  /** One round of the loop for a guard that does not leave: turn in place
    * before an obstacle, else step forward. */
  function Advance(grid: seq<string>, g: Guard): Guard
  {
    if Leaves(grid, g) then g
    else if Obstacle(grid, Ahead(g)) then Guard(g.position, TurnRight(g.direction))
    else Guard(Ahead(g), g.direction)
  }

  /** The guard after `n` rounds. */
  function Walk(grid: seq<string>, g: Guard, n: nat): Guard
  {
    if n == 0 then g else Advance(grid, Walk(grid, g, n - 1))
  }

  /** The positions occupied in rounds 0 .. n - 1. */
  function Visited(grid: seq<string>, g: Guard, n: nat): set<Position>
  {
    set i | 0 <= i < n :: Walk(grid, g, i).position
  }

  lemma VisitedNext(grid: seq<string>, g: Guard, n: nat)
    ensures Visited(grid, g, n + 1) == Visited(grid, g, n) + {Walk(grid, g, n).position}
  {
    assert Walk(grid, g, n).position in Visited(grid, g, n + 1);
  }

  /** One round of the loop body: the step ahead, then leave, turn or
    * move. */
  method Round(grid: seq<string>, current: Guard) returns (leaves: bool, next: Guard)
    ensures leaves == Leaves(grid, current)
    ensures !leaves ==> next == Advance(grid, current)
  {
    var (row, col) := current.position;
    match current.direction {
      case '^' => row := row - 1;
      case '<' => col := col - 1;
      case '>' => col := col + 1;
      case 'v' => row := row + 1;
      case _ =>
    }
    assert (row, col) == Ahead(current);
    next := current;
    if row < 0 || row >= |grid| || col < 0 || col >= |grid[0]| {
      // Left the area
      return true, next;
    } else if col < |grid[row]| && grid[row][col] == '#' {
      // Hit an obstacle
      next := Guard(current.position, TurnRight(current.direction));
    } else {
      // Just moved forward
      next := Guard((row, col), current.direction);
    }
    return false, next;
  }

  /** Part 1: the `while (true)` loop, for at most `fuel` rounds: the number
    * of positions occupied up to the round whose step leaves the map; a
    * failure when the guard is still inside after `fuel` rounds. */
  method Part1(grid: seq<string>, guard: Guard, fuel: nat) returns (r: Result<nat>)
    ensures r.Success? ==> exists k :: (0 <= k < fuel && Leaves(grid, Walk(grid, guard, k))
      && (forall i :: 0 <= i < k ==> !Leaves(grid, Walk(grid, guard, i)))
      && r.value == |Visited(grid, guard, k + 1)|)
    ensures r.Failure? ==> forall i :: 0 <= i < fuel ==> !Leaves(grid, Walk(grid, guard, i))
  {
    var visited: set<Position> := {};
    var current := guard;
    for n := 0 to fuel
      invariant current == Walk(grid, guard, n)
      invariant visited == Visited(grid, guard, n)
      invariant forall i :: 0 <= i < n ==> !Leaves(grid, Walk(grid, guard, i))
    {
      VisitedNext(grid, guard, n);
      visited := visited + {current.position};
      var leaves, next := Round(grid, current);
      if leaves {
        return Success(|visited|);
      }
      current := next;
    }
    return Failure("the guard is still inside");
  }

  /** Four quarter turns face the guard the way it started. */
  lemma FourTurns(direction: char)
    ensures TurnRight(TurnRight(TurnRight(TurnRight(direction)))) == direction
    ensures direction in "^<>v" ==> TurnRight(direction) != direction && TurnRight(direction) in "^<>v"
  {
  }

  /** A turn keeps the position; a step keeps the direction and moves to
    * the free cell ahead. */
  lemma AdvanceMeaning(grid: seq<string>, g: Guard)
    requires !Leaves(grid, g)
    ensures var next := Advance(grid, g);
      (next.position == g.position && next.direction == TurnRight(g.direction) && Obstacle(grid, Ahead(g)))
      || (next.position == Ahead(g) && next.direction == g.direction && !Obstacle(grid, Ahead(g)))
  {
  }

  /** A guard starting on the map stays on it: every position it occupies
    * is within the rows and the first row's width. */
  lemma {:induction false} WalkStaysInside(grid: seq<string>, g: Guard, n: nat)
    requires 0 <= g.position.0 < |grid| && 0 <= g.position.1 < |grid[0]|
    ensures var p := Walk(grid, g, n).position; 0 <= p.0 < |grid| && 0 <= p.1 < |grid[0]|
  {
    if n > 0 {
      WalkStaysInside(grid, g, n - 1);
    }
  }

  /** Every position visited lies on the map. */
  lemma VisitedInside(grid: seq<string>, g: Guard, n: nat)
    requires 0 <= g.position.0 < |grid| && 0 <= g.position.1 < |grid[0]|
    ensures forall p :: p in Visited(grid, g, n) ==> 0 <= p.0 < |grid| && 0 <= p.1 < |grid[0]|
    ensures n > 0 ==> g.position in Visited(grid, g, n)
  {
    forall p | p in Visited(grid, g, n)
      ensures 0 <= p.0 < |grid| && 0 <= p.1 < |grid[0]|
    {
      var i :| 0 <= i < n && Walk(grid, g, i).position == p;
      WalkStaysInside(grid, g, i);
    }
    if n > 0 {
      assert Walk(grid, g, 0) == g;
    }
  }
}
