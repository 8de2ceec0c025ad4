// 2022 day 22: walking a wrap-around board by a list of moves and turns.
// The board is held as its lines: a cell is present when its character is
// not a space, and a row's (a column's) extent is the range between the
// first and the last present cell of that row (that column).

module Day2022_22 {
  import opened Common

  datatype Direction = Left | Up | Right | Down
  datatype Movement = Forward(steps: nat) | TurnL | TurnR
  datatype State = State(x: int, y: int, facing: Direction)
  datatype Range = Empty | Span(min: int, max: int)

  // ---------------------------------------------------------------------------
  // The turn table
  // ---------------------------------------------------------------------------

  function TurnL(d: Direction): Direction
  {
    match d
    case Left => Down
    case Up => Left
    case Right => Up
    case Down => Right
  }

  function TurnR(d: Direction): Direction
  {
    match d
    case Left => Up
    case Up => Right
    case Right => Down
    case Down => Left
  }

  function Score(d: Direction): nat
  {
    match d
    case Left => 2
    case Up => 3
    case Right => 0
    case Down => 1
  }

  function Opposite(d: Direction): Direction
  {
    TurnR(TurnR(d))
  }

  /** A right and a left turn undo each other, four right turns are no turn,
    * and each right turn adds one to the facing score, modulo 4. */
  lemma TurnTable(d: Direction)
    ensures TurnL(TurnR(d)) == d && TurnR(TurnL(d)) == d
    ensures TurnR(TurnR(TurnR(TurnR(d)))) == d
    ensures Score(TurnR(d)) == (Score(d) + 1) % 4
    ensures forall e :: Score(e) == Score(d) ==> e == d
  {
  }

  // ---------------------------------------------------------------------------
  // The board and its extents
  // ---------------------------------------------------------------------------

  predicate Present(board: seq<string>, x: int, y: int)
  {
    0 <= y < |board| && 0 <= x < |board[y]| && board[y][x] != ' '
  }

  /** `grid.get(x, y)`: the character at a present cell. */
  function Get(board: seq<string>, x: int, y: int): (r: Option<char>)
    ensures r.Some? <==> Present(board, x, y)
  {
    if Present(board, x, y) then Some(board[y][x]) else None
  }

  /** The first flagged index. */
  function First(flags: seq<bool>): (r: Option<nat>)
    ensures r.None? <==> forall i :: 0 <= i < |flags| ==> !flags[i]
    ensures r.Some? ==> r.value < |flags| && flags[r.value]
    ensures r.Some? ==> forall i :: 0 <= i < r.value ==> !flags[i]
  {
    if |flags| == 0 then None
    else if flags[0] then Some(0)
    else
      match First(flags[1..])
      case None => None
      case Some(i) => Some(i + 1)
  }

  /** The last flagged index. */
  function Last(flags: seq<bool>): (r: Option<nat>)
    ensures r.None? <==> forall i :: 0 <= i < |flags| ==> !flags[i]
    ensures r.Some? ==> r.value < |flags| && flags[r.value]
    ensures r.Some? ==> forall i :: r.value < i < |flags| ==> !flags[i]
  {
    if |flags| == 0 then None
    else if flags[|flags| - 1] then Some(|flags| - 1)
    else Last(flags[..|flags| - 1])
  }

  /** The range of the flagged indices, empty when none is flagged. */
  function Extent(flags: seq<bool>): (e: Range)
    ensures e.Empty? <==> forall i :: 0 <= i < |flags| ==> !flags[i]
    ensures e.Span? ==> 0 <= e.min <= e.max < |flags| && flags[e.min] && flags[e.max]
    ensures e.Span? ==> forall i :: 0 <= i < |flags| && flags[i] ==> e.min <= i <= e.max
  {
    match (First(flags), Last(flags))
    case (Some(lo), Some(hi)) => Span(lo, hi)
    case _ => Empty
  }

  function RowFlags(board: seq<string>, y: int): (r: seq<bool>)
    ensures forall x :: 0 <= x < |r| ==> (r[x] <==> Present(board, x, y))
  {
    if 0 <= y < |board| then seq(|board[y]|, x requires 0 <= x < |board[y]| => board[y][x] != ' ') else []
  }

  function ColumnFlags(board: seq<string>, x: int): (r: seq<bool>)
    ensures |r| == |board|
    ensures forall y :: 0 <= y < |r| ==> (r[y] <==> Present(board, x, y))
  {
    seq(|board|, y requires 0 <= y < |board| => 0 <= x < |board[y]| && board[y][x] != ' ')
  }

  /** `grid.getXRange(y)`: the extent of the present cells on row y. */
  function RowExtent(board: seq<string>, y: int): (e: Range)
    ensures e.Span? ==> Present(board, e.min, y) && Present(board, e.max, y)
  {
    Extent(RowFlags(board, y))
  }

  /** `grid.getYRange(x)`: the extent of the present cells in column x. */
  function ColumnExtent(board: seq<string>, x: int): (e: Range)
    ensures e.Span? ==> Present(board, x, e.min) && Present(board, x, e.max)
  {
    Extent(ColumnFlags(board, x))
  }

  /** Every present cell lies within its row's extent, which is therefore not empty. */
  lemma InRow(board: seq<string>, x: int, y: int)
    requires Present(board, x, y)
    ensures RowExtent(board, y).Span?
    ensures RowExtent(board, y).min <= x <= RowExtent(board, y).max
  {
    assert RowFlags(board, y)[x];
  }

  /** Every present cell lies within its column's extent, which is therefore not empty. */
  lemma InColumn(board: seq<string>, x: int, y: int)
    requires Present(board, x, y)
    ensures ColumnExtent(board, x).Span?
    ensures ColumnExtent(board, x).min <= y <= ColumnExtent(board, x).max
  {
    assert ColumnFlags(board, x)[y];
  }

  /** Which rows hold a present cell. */
  function Occupied(board: seq<string>): (r: seq<bool>)
    ensures |r| == |board|
    ensures forall y :: 0 <= y < |r| ==> (r[y] <==> RowExtent(board, y).Span?)
  {
    seq(|board|, y requires 0 <= y < |board| => RowExtent(board, y).Span?)
  }

  // ---------------------------------------------------------------------------
  // One step
  // ---------------------------------------------------------------------------

  /** Stepping below the extent wraps to its other end. */
  function WrapDown(e: Range, k: int): int
  {
    if e.Span? && e.min > k then e.max else k
  }

  /** Stepping above the extent wraps to its other end. */
  function WrapUp(e: Range, k: int): int
  {
    if e.Span? && e.max < k then e.min else k
  }

  /** The cell a step would reach: one cell on in the facing, wrapping round
    * the row's or the column's extent. */
  function Candidate(board: seq<string>, s: State): (int, int)
  {
    match s.facing
    case Left => (WrapDown(RowExtent(board, s.y), s.x - 1), s.y)
    case Right => (WrapUp(RowExtent(board, s.y), s.x + 1), s.y)
    case Up => (s.x, WrapDown(ColumnExtent(board, s.x), s.y - 1))
    case Down => (s.x, WrapUp(ColumnExtent(board, s.x), s.y + 1))
  }

  /** A step is taken only onto an open cell; otherwise the state stays. */
  function Advance(board: seq<string>, s: State): (r: State)
    ensures r.facing == s.facing
    ensures r == s || Get(board, r.x, r.y) == Some('.')
  {
    var (nx, ny) := Candidate(board, s);
    if Get(board, nx, ny) == Some('.') then State(nx, ny, s.facing) else s
  }

  /** Within an extent, a step down and a step up undo each other, wrapping
    * included, and neither leaves the extent. */
  lemma WrapBack(e: Range, k: int)
    requires e.Span? && e.min <= k <= e.max
    ensures e.min <= WrapDown(e, k - 1) <= e.max && WrapUp(e, WrapDown(e, k - 1) + 1) == k
    ensures e.min <= WrapUp(e, k + 1) <= e.max && WrapDown(e, WrapUp(e, k + 1) - 1) == k
  {
  }

  /** From a present cell, the candidate of the opposite facing from the
    * candidate cell is the cell itself: wrapping goes to the other end of the
    * same row or column, and back. */
  lemma CandidateBack(board: seq<string>, s: State)
    requires Present(board, s.x, s.y)
    ensures Candidate(board, State(Candidate(board, s).0, Candidate(board, s).1, Opposite(s.facing))) == (s.x, s.y)
  {
    match s.facing
    case Left => RowBack(board, s.x, s.y);
    case Right => RowBack(board, s.x, s.y);
    case Up => ColumnBack(board, s.x, s.y);
    case Down => ColumnBack(board, s.x, s.y);
  }

  lemma RowBack(board: seq<string>, x: int, y: int)
    requires Present(board, x, y)
    ensures Candidate(board, State(Candidate(board, State(x, y, Left)).0, y, Right)) == (x, y)
    ensures Candidate(board, State(Candidate(board, State(x, y, Right)).0, y, Left)) == (x, y)
  {
    InRow(board, x, y);
    WrapBack(RowExtent(board, y), x);
  }

  lemma ColumnBack(board: seq<string>, x: int, y: int)
    requires Present(board, x, y)
    ensures Candidate(board, State(x, Candidate(board, State(x, y, Up)).1, Down)) == (x, y)
    ensures Candidate(board, State(x, Candidate(board, State(x, y, Down)).1, Up)) == (x, y)
  {
    InColumn(board, x, y);
    WrapBack(ColumnExtent(board, x), y);
  }

  /** A step taken from an open cell is undone by a step in the opposite facing. */
  lemma AdvanceReverses(board: seq<string>, s: State)
    requires Get(board, s.x, s.y) == Some('.')
    requires Advance(board, s) != s
    ensures var r := Advance(board, s);
      Advance(board, r.(facing := Opposite(s.facing))) == s.(facing := Opposite(s.facing))
  {
    CandidateBack(board, s);
  }

  // ---------------------------------------------------------------------------
  // The walk
  // ---------------------------------------------------------------------------

  /** `n` steps on; from a present cell they stay on the board. */
  function Ahead(board: seq<string>, s: State, n: nat): (r: State)
    ensures r.facing == s.facing
    ensures Present(board, s.x, s.y) ==> Present(board, r.x, r.y)
  {
    if n == 0 then s else Advance(board, Ahead(board, s, n - 1))
  }

  function Apply(board: seq<string>, s: State, m: Movement): State
  {
    match m
    case TurnR => s.(facing := TurnR(s.facing))
    case TurnL => s.(facing := TurnL(s.facing))
    case Forward(n) => Ahead(board, s, n)
  }

  function Follow(board: seq<string>, s: State, ms: seq<Movement>): State
  {
    if |ms| == 0 then s else Apply(board, Follow(board, s, ms[..|ms| - 1]), ms[|ms| - 1])
  }

  /** The start: the leftmost cell of the topmost row that has any. */
  function Start(board: seq<string>): Option<State>
  {
    match Extent(Occupied(board))
    case Empty => None
    case Span(top, _) =>
      match RowExtent(board, top)
      case Span(left, _) => Some(State(left, top, Right))
      case Empty => None
  }

  /** The password: 1000 times the row plus 4 times the column plus the
    * facing score, rows and columns counted from 1. */
  function Password(s: State): int
  {
    1000 * (s.y + 1) + 4 * (s.x + 1) + Score(s.facing)
  }

  /** The password of the walk; None on a board with no cell, where the
    * source's arithmetic is on undefined coordinates. */
  function Walked(board: seq<string>, ms: seq<Movement>): Option<int>
  {
    match Start(board)
    case None => None
    case Some(s) => Some(Password(Follow(board, s, ms)))
  }

  /** The start lies above every other present cell, and left of every
    * other present cell on its row: a board with any cell has a start. */
  lemma StartIsTopLeft(board: seq<string>, x: int, y: int)
    requires Present(board, x, y)
    ensures Start(board).Some?
    ensures Start(board).value.y <= y
    ensures Start(board).value.y == y ==> Start(board).value.x <= x
  {
    var occ := Occupied(board);
    InRow(board, x, y);
    assert occ[y];
    var top := Extent(occ).min;
    assert occ[top];
    if top == y {
      InRow(board, x, y);
    }
  }

  /** The walk starts on a present cell, facing right. */
  lemma StartIsCell(board: seq<string>)
    requires Start(board).Some?
    ensures Present(board, Start(board).value.x, Start(board).value.y)
    ensures Start(board).value.facing == Right
  {
  }

  /** Starting on a cell of the board, the walk never leaves the board. */
  lemma {:induction false} FollowOnBoard(board: seq<string>, s: State, ms: seq<Movement>)
    requires Present(board, s.x, s.y)
    ensures Present(board, Follow(board, s, ms).x, Follow(board, s, ms).y)
  {
    if |ms| > 0 {
      var before := Follow(board, s, ms[..|ms| - 1]);
      FollowOnBoard(board, s, ms[..|ms| - 1]);
      match ms[|ms| - 1]
      case TurnR =>
      case TurnL =>
      case Forward(n) =>
    }
  }

  /** The walk ends on a cell of the board. */
  lemma WalkEndsOnBoard(board: seq<string>, ms: seq<Movement>)
    requires Start(board).Some?
    ensures Present(board, Follow(board, Start(board).value, ms).x, Follow(board, Start(board).value, ms).y)
  {
    StartIsCell(board);
    FollowOnBoard(board, Start(board).value, ms);
  }

  /** On boards narrower than 249 columns the password gives back the row,
    * the column and the facing. */
  lemma PasswordUnique(a: State, b: State)
    requires 0 <= a.x < 249 && 0 <= b.x < 249
    requires Password(a) == Password(b)
    ensures a == b
  {
    PasswordParts(a);
    PasswordParts(b);
    TurnTable(a.facing);
  }

  /** The password's thousands are the row, and its remainder the column
    * and the facing. */
  lemma PasswordParts(s: State)
    requires 0 <= s.x < 249
    ensures Password(s) / 1000 == s.y + 1
    ensures (Password(s) % 1000) / 4 == s.x + 1
    ensures (Password(s) % 1000) % 4 == Score(s.facing)
  {
    var u := 4 * (s.x + 1) + Score(s.facing);
    ModUnique(Password(s), 1000, s.y + 1, u);
    ModUnique(u, 4, s.x + 1, Score(s.facing));
  }

  // ---------------------------------------------------------------------------
  // The solver
  // ---------------------------------------------------------------------------

  method Part1(board: seq<string>, movements: seq<Movement>) returns (password: Option<int>)
    ensures password == Walked(board, movements)
  {
    var yRangeStart := Extent(Occupied(board));
    if yRangeStart.Empty? {
      return None;
    }
    var xRangeStart := RowExtent(board, yRangeStart.min);
    if xRangeStart.Empty? {
      return None;
    }
    var x, y, direction := Walk(board, State(xRangeStart.min, yRangeStart.min, Right), movements);
    password := Some(Password(State(x, y, direction)));
  }

  /** The loop over the movements: a turn changes the facing, a number
    * takes that many steps. */
  method Walk(board: seq<string>, start: State, movements: seq<Movement>) returns (x: int, y: int, direction: Direction)
    ensures State(x, y, direction) == Follow(board, start, movements)
  {
    x, y, direction := start.x, start.y, start.facing;
    for i := 0 to |movements|
      invariant State(x, y, direction) == Follow(board, start, movements[..i])
    {
      assert movements[..i + 1][..i] == movements[..i];
      match movements[i] {
        case TurnR =>
          direction := TurnR(direction);
        case TurnL =>
          direction := TurnL(direction);
        case Forward(steps) =>
          x, y := Steps(board, x, y, direction, steps);
      }
    }
    assert movements[..|movements|] == movements;
  }

  /** The inner loop: `steps` single steps in one facing. */
  method Steps(board: seq<string>, x0: int, y0: int, direction: Direction, steps: nat) returns (x: int, y: int)
    ensures State(x, y, direction) == Ahead(board, State(x0, y0, direction), steps)
  {
    x, y := x0, y0;
    for m := 0 to steps
      invariant State(x, y, direction) == Ahead(board, State(x0, y0, direction), m)
    {
      x, y := Step(board, x, y, direction);
    }
  }

  /** One step of the inner loop: the next cell, wrapped round the row or
    * column, taken only when it is open. */
  method Step(board: seq<string>, x: int, y: int, direction: Direction) returns (x': int, y': int)
    ensures State(x', y', direction) == Advance(board, State(x, y, direction))
  {
    var nextX, nextY := x, y;
    if direction == Left {
      nextX := nextX - 1;
      var xRange := RowExtent(board, nextY);
      if xRange.Span? && xRange.min > nextX {
        nextX := xRange.max;
      }
    } else if direction == Right {
      nextX := nextX + 1;
      var xRange := RowExtent(board, nextY);
      if xRange.Span? && xRange.max < nextX {
        nextX := xRange.min;
      }
    } else if direction == Up {
      nextY := nextY - 1;
      var yRange := ColumnExtent(board, nextX);
      if yRange.Span? && yRange.min > nextY {
        nextY := yRange.max;
      }
    } else if direction == Down {
      nextY := nextY + 1;
      var yRange := ColumnExtent(board, nextX);
      if yRange.Span? && yRange.max < nextY {
        nextY := yRange.min;
      }
    }
    x', y' := x, y;
    if Get(board, nextX, nextY) == Some('.') {
      x', y' := nextX, nextY;
    }
  }
}
