/** 2022 day 12: a height map of letters, 'S' the start at height 'a' and
    'E' the end at height 'z'. Each cell gets an edge of weight 1 to every
    orthogonal neighbour at most one higher; the shortest paths themselves
    come from a graph library and enter the model as parameters. A cell
    "l-c" is named in the source by its line and column, which is
    one-to-one, so the model names it by the pair. */
module Day2022_12 {
  import opened Common

  type Pos = (nat, nat)

  /** `getHeight` of one character. */
  function Height(ch: char): int
  {
    var ch' := if ch == 'S' then 'a' else if ch == 'E' then 'z' else ch;
    ch' as int - 'a' as int
  }

  lemma HeightValues(ch: char)
    ensures Height('S') == 0 && Height('E') == 25
    ensures 'a' <= ch <= 'z' ==> 0 <= Height(ch) <= 25 && Height(ch) == ch as int - 'a' as int
  {
  }

  /** Every vertical neighbour that the source reads exists: a line
      longer than the one above or below it makes `getHeight` read
      `undefined` and throw. Asked of every line, this is the same as all
      lines being equally long. */
  ghost predicate NeighboursExist(grid: seq<seq<char>>)
  {
    forall l :: 0 < l < |grid| ==> |grid[l]| == |grid[l - 1]|
  }

  ghost predicate InGrid(grid: seq<seq<char>>, p: Pos)
  {
    p.0 < |grid| && p.1 < |grid[p.0]|
  }

  /** The edge from `p` to `q` is climbable: at most one higher. */
  ghost predicate Climbable(grid: seq<seq<char>>, p: Pos, q: Pos)
    requires InGrid(grid, p) && InGrid(grid, q)
  {
    Height(grid[q.0][q.1]) - Height(grid[p.0][p.1]) <= 1
  }

  /** The `neighbours` record of cell `p`, in the order the source checks
      left, right, up and down. */
  ghost function Neighbours(grid: seq<seq<char>>, p: Pos): set<Pos>
    requires InGrid(grid, p) && NeighboursExist(grid)
  {
    var (l, c) := p;
    (if c > 0 && Climbable(grid, p, (l, c - 1)) then {(l, c - 1)} else {})
    + (if c < |grid[l]| - 1 && Climbable(grid, p, (l, c + 1)) then {(l, c + 1)} else {})
    + (if l > 0 && Climbable(grid, p, (l - 1, c)) then {(l - 1, c)} else {})
    + (if l < |grid| - 1 && Climbable(grid, p, (l + 1, c)) then {(l + 1, c)} else {})
  }

  ghost predicate Adjacent(p: Pos, q: Pos)
  {
    (p.0 == q.0 && (p.1 == q.1 + 1 || q.1 == p.1 + 1)) || (p.1 == q.1 && (p.0 == q.0 + 1 || q.0 == p.0 + 1))
  }

  /** A cell's neighbours are exactly the orthogonally adjacent cells of
      the grid that are at most one higher. */
  lemma NeighboursMeaning(grid: seq<seq<char>>, p: Pos, q: Pos)
    requires InGrid(grid, p) && NeighboursExist(grid)
    ensures q in Neighbours(grid, p) <==> Adjacent(p, q) && InGrid(grid, q) && Climbable(grid, p, q)
  {
  }

  /** The character at `p`; off the grid the source would read
      `undefined`, which no cell of interest equals. */
  function CharAt(grid: seq<seq<char>>, p: Pos): char
  {
    if p.0 < |grid| && p.1 < |grid[p.0]| then grid[p.0][p.1] else '\0'
  }

  /** The cells before column `c` of line `l`, line by line. */
  function CellsBefore(grid: seq<seq<char>>, l: nat, c: nat): seq<Pos>
    requires l < |grid| ==> c <= |grid[l]|
    requires l <= |grid| && (l == |grid| ==> c == 0)
    decreases l, c
  {
    if c > 0 then CellsBefore(grid, l, c - 1) + [(l, c - 1)]
    else if l > 0 then CellsBefore(grid, l - 1, |grid[l - 1]|)
    else []
  }

  /** The loops visit every cell of the grid once, line by line. */
  lemma {:induction false} CellsBeforeMembers(grid: seq<seq<char>>, l: nat, c: nat)
    requires l < |grid| ==> c <= |grid[l]|
    requires l <= |grid| && (l == |grid| ==> c == 0)
    ensures forall p: Pos :: p in CellsBefore(grid, l, c) <==> InGrid(grid, p) && (p.0 < l || (p.0 == l && p.1 < c))
    decreases l, c
  {
    if c > 0 {
      CellsBeforeMembers(grid, l, c - 1);
    } else if l > 0 {
      CellsBeforeMembers(grid, l - 1, |grid[l - 1]|);
    }
  }

  /** The cells of `cells` holding `ch`, in order. */
  function WithChar(grid: seq<seq<char>>, cells: seq<Pos>, ch: char): seq<Pos>
  {
    if cells == [] then []
    else
      var last := cells[|cells| - 1];
      WithChar(grid, cells[..|cells| - 1], ch) + if CharAt(grid, last) == ch then [last] else []
  }

  lemma {:induction false} WithCharMembers(grid: seq<seq<char>>, cells: seq<Pos>, ch: char)
    ensures forall p: Pos :: p in WithChar(grid, cells, ch) <==> p in cells && CharAt(grid, p) == ch
  {
    if cells != [] {
      WithCharMembers(grid, cells[..|cells| - 1], ch);
      assert cells == cells[..|cells| - 1] + [cells[|cells| - 1]];
    }
  }

  /** The last cell of `cells` holding `ch`. */
  function LastWith(grid: seq<seq<char>>, cells: seq<Pos>, ch: char): Option<Pos>
  {
    if cells == [] then None
    else if CharAt(grid, cells[|cells| - 1]) == ch then Some(cells[|cells| - 1])
    else LastWith(grid, cells[..|cells| - 1], ch)
  }

  /** The last cell holding `ch` is found exactly when there is one, and
      no later cell holds `ch`. */
  lemma {:induction false} LastWithMeaning(grid: seq<seq<char>>, cells: seq<Pos>, ch: char)
    ensures LastWith(grid, cells, ch).None? <==> forall i :: 0 <= i < |cells| ==> CharAt(grid, cells[i]) != ch
    ensures LastWith(grid, cells, ch).Some? ==>
      exists i :: 0 <= i < |cells| && cells[i] == LastWith(grid, cells, ch).value
        && CharAt(grid, cells[i]) == ch && forall j :: i < j < |cells| ==> CharAt(grid, cells[j]) != ch
  {
    if cells != [] {
      var n := |cells| - 1;
      LastWithMeaning(grid, cells[..n], ch);
      if CharAt(grid, cells[n]) == ch {
        assert cells[n] == LastWith(grid, cells, ch).value;
      } else if LastWith(grid, cells, ch).Some? {
        var i :| 0 <= i < n && cells[..n][i] == LastWith(grid, cells, ch).value
          && CharAt(grid, cells[..n][i]) == ch && forall j :: i < j < n ==> CharAt(grid, cells[..n][j]) != ch;
        assert cells[i] == LastWith(grid, cells, ch).value;
      }
    }
  }

  /** What the source's loading returns: the edges of the graph, the start,
      the end and the potential starts. */
  datatype Problem = Problem(graph: map<Pos, set<Pos>>, start: Pos, end: Pos, potentialStarts: seq<Pos>)

  /** The loading loops' variables. */
  datatype Loading = Loading(start: Option<Pos>, end: Option<Pos>, potentialStarts: seq<Pos>, graph: map<Pos, set<Pos>>)

  /** The loops have visited exactly the cells before column `c` of line
      `l`: the start and end are the last 'S' and 'E' among them, the
      potential starts their 'a' cells and the graph their neighbours. */
  ghost predicate LoadedUpTo(grid: seq<seq<char>>, s: Loading, l: nat, c: nat)
    requires NeighboursExist(grid)
    requires l < |grid| ==> c <= |grid[l]|
    requires l <= |grid| && (l == |grid| ==> c == 0)
  {
    var before := CellsBefore(grid, l, c);
    && s.start == LastWith(grid, before, 'S')
    && s.end == LastWith(grid, before, 'E')
    && s.potentialStarts == WithChar(grid, before, 'a')
    && GraphOf(grid, s.graph, before)
  }

  /** `graph` holds the neighbours of exactly the cells `cells`. */
  ghost predicate GraphOf(grid: seq<seq<char>>, graph: map<Pos, set<Pos>>, cells: seq<Pos>)
    requires NeighboursExist(grid)
  {
    && (forall p :: p in graph <==> p in cells)
    && (forall p :: p in graph ==> InGrid(grid, p) && graph[p] == Neighbours(grid, p))
  }

  /** The graph-building loops of `loadInput`, over the already split
      lines. */
  method BuildProblem(grid: seq<seq<char>>) returns (r: Result<Problem>)
    ensures r.Success? <==>
      && NeighboursExist(grid)
      && LastWith(grid, CellsBefore(grid, |grid|, 0), 'S').Some?
      && LastWith(grid, CellsBefore(grid, |grid|, 0), 'E').Some?
    ensures r.Success? ==>
      && (forall p :: p in r.value.graph <==> InGrid(grid, p))
      && (forall p :: p in r.value.graph ==> r.value.graph[p] == Neighbours(grid, p))
      && r.value.start == LastWith(grid, CellsBefore(grid, |grid|, 0), 'S').value
      && r.value.end == LastWith(grid, CellsBefore(grid, |grid|, 0), 'E').value
      && r.value.potentialStarts == WithChar(grid, CellsBefore(grid, |grid|, 0), 'a')
  {
    var ok := CheckNeighbours(grid);
    if !ok {
      return Failure("Cannot read properties of undefined");
    }
    var s := Loading(None, None, [], map[]);
    var l := 0;
    while l < |grid|
      invariant 0 <= l <= |grid|
      invariant LoadedUpTo(grid, s, l, 0)
    {
      var c := 0;
      while c < |grid[l]|
        invariant 0 <= c <= |grid[l]|
        invariant LoadedUpTo(grid, s, l, c)
      {
        s := VisitCell(grid, s, l, c);
        c := c + 1;
      }
      assert CellsBefore(grid, l + 1, 0) == CellsBefore(grid, l, |grid[l]|);
      l := l + 1;
    }
    CellsBeforeMembers(grid, |grid|, 0);
    if s.start.None? || s.end.None? {
      return Failure("AssertionError");
    }
    return Success(Problem(s.graph, s.start.value, s.end.value, s.potentialStarts));
  }

  /** The loops' body for the cell at line `l`, column `c`. */
  method VisitCell(grid: seq<seq<char>>, s: Loading, l: nat, c: nat) returns (s': Loading)
    requires NeighboursExist(grid) && InGrid(grid, (l, c))
    requires LoadedUpTo(grid, s, l, c)
    ensures LoadedUpTo(grid, s', l, c + 1)
  {
    var name: Pos := (l, c);
    ghost var before := CellsBefore(grid, l, c);
    assert CellsBefore(grid, l, c + 1) == before + [name];
    var start, end, potentialStarts := s.start, s.end, s.potentialStarts;
    var ch := grid[l][c];
    if ch == 'S' {
      start := Some(name);
    } else if ch == 'E' {
      end := Some(name);
    } else if ch == 'a' {
      potentialStarts := potentialStarts + [name];
    }
    LastWithStep(grid, before, name, 'S');
    LastWithStep(grid, before, name, 'E');
    WithCharStep(grid, before, name, 'a');
    var neighbours := CellNeighbours(grid, l, c);
    GraphStep(grid, s.graph, before, name);
    s' := Loading(start, end, potentialStarts, s.graph[name := neighbours]);
  }

  lemma LastWithStep(grid: seq<seq<char>>, cells: seq<Pos>, p: Pos, ch: char)
    ensures LastWith(grid, cells + [p], ch) == if CharAt(grid, p) == ch then Some(p) else LastWith(grid, cells, ch)
  {
    assert (cells + [p])[..|cells|] == cells;
  }

  lemma WithCharStep(grid: seq<seq<char>>, cells: seq<Pos>, p: Pos, ch: char)
    ensures WithChar(grid, cells + [p], ch) == WithChar(grid, cells, ch) + if CharAt(grid, p) == ch then [p] else []
  {
    assert (cells + [p])[..|cells|] == cells;
  }

  lemma GraphStep(grid: seq<seq<char>>, graph: map<Pos, set<Pos>>, cells: seq<Pos>, p: Pos)
    requires NeighboursExist(grid) && InGrid(grid, p)
    requires GraphOf(grid, graph, cells)
    ensures GraphOf(grid, graph[p := Neighbours(grid, p)], cells + [p])
  {
  }

  /** The `checkNeighbour` calls of one cell. */
  method CellNeighbours(grid: seq<seq<char>>, l: nat, c: nat) returns (neighbours: set<Pos>)
    requires NeighboursExist(grid) && InGrid(grid, (l, c))
    ensures neighbours == Neighbours(grid, (l, c))
  {
    var line := grid[l];
    var height := Height(line[c]);
    neighbours := {};
    if c > 0 && Height(grid[l][c - 1]) - height <= 1 {
      neighbours := neighbours + {(l, c - 1)};
    }
    if c < |line| - 1 && Height(grid[l][c + 1]) - height <= 1 {
      neighbours := neighbours + {(l, c + 1)};
    }
    if l > 0 && Height(grid[l - 1][c]) - height <= 1 {
      neighbours := neighbours + {(l - 1, c)};
    }
    if l < |grid| - 1 && Height(grid[l + 1][c]) - height <= 1 {
      neighbours := neighbours + {(l + 1, c)};
    }
  }

  /** Whether every vertical neighbour the loops read exists. */
  method CheckNeighbours(grid: seq<seq<char>>) returns (ok: bool)
    ensures ok <==> NeighboursExist(grid)
  {
    var l := 0;
    while l < |grid|
      invariant 0 <= l <= |grid|
      invariant forall l' :: 0 < l' < l ==> |grid[l']| == |grid[l' - 1]|
      invariant 0 < l < |grid| ==> |grid[l - 1]| <= |grid[l]|
    {
      if l > 0 && |grid[l]| > |grid[l - 1]| {
        return false;
      }
      if l + 1 < |grid| && |grid[l]| > |grid[l + 1]| {
        assert |grid[(l + 1) - 1]| != |grid[l + 1]|;
        return false;
      }
      l := l + 1;
    }
    return true;
  }

  /** Part 1: the number of steps of the path the library found from the
      start to the end; no path fails the assertion. */
  function Part1(path: Option<seq<Pos>>): (r: Result<int>)
    ensures r.Success? <==> path.Some?
    ensures r.Success? ==> r.value == |path.value| - 1
  {
    match path
    case None => Failure("AssertionError")
    case Some(p) => Success(|p| - 1)
  }

  /** A path's length, or 0 when there is none. */
  function StepsOrZero(path: Option<seq<Pos>>): int
  {
    match path
    case None => 0
    case Some(p) => |p| - 1
  }

  /** Part 2: the fewest steps over the potential starts, leaving out the
      starts without a path (and any path of 0 steps); none at all reads
      `undefined`. */
  function Part2(paths: seq<Option<seq<Pos>>>): (r: Option<int>)
    ensures r.None? <==> forall i :: 0 <= i < |paths| ==> StepsOrZero(paths[i]) == 0
    ensures r.Some? ==> r.value != 0 && exists i :: 0 <= i < |paths| && StepsOrZero(paths[i]) == r.value
    ensures r.Some? ==> forall i :: 0 <= i < |paths| && StepsOrZero(paths[i]) != 0 ==> r.value <= StepsOrZero(paths[i])
  {
    var lengths := seq(|paths|, i requires 0 <= i < |paths| => StepsOrZero(paths[i]));
    var nonZero := NonZero(lengths);
    assert forall i :: 0 <= i < |paths| ==> lengths[i] == StepsOrZero(paths[i]);
    if nonZero == [] then
      assert forall i :: 0 <= i < |paths| ==> lengths[i] !in nonZero;
      None
    else
      // the first of the ascending sort is the smallest
      var m := Min(nonZero);
      assert m in nonZero;
      assert m in lengths;
      assert forall i :: 0 <= i < |paths| && lengths[i] != 0 ==> lengths[i] in nonZero && m <= lengths[i];
      Some(m)
  }

  /** `filter((l) => l !== 0)`. */
  function NonZero(s: seq<int>): (r: seq<int>)
    ensures forall x :: x in r <==> x in s && x != 0
  {
    if s == [] then []
    else
      assert forall x :: x in s <==> x == s[0] || x in s[1..] by { assert s == [s[0]] + s[1..]; }
      (if s[0] != 0 then [s[0]] else []) + NonZero(s[1..])
  }
}
