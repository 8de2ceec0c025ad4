/** 2023 day 14: a platform of round rocks 'O', cube rocks '#' and empty
    space '.'. Tilting it rolls every round rock as far as it goes; the load
    on the north beams counts each round rock by its distance from the
    south edge. */
module Day2023_14 {
  import opened Common

  type Cell = (int, int)

  /** The grid `loadInput` fills: character `x` of line `y` at (x, y). */
  function CellsOf(lines: seq<string>): map<Cell, char>
  {
    map p | p in (set y, x | 0 <= y < |lines| && 0 <= x < |lines[y]| :: (x, y)) :: lines[p.1][p.0]
  }

  /** The width of the widest line: the x range the grid spans. */
  function Width(lines: seq<string>): (w: nat)
    ensures forall y :: 0 <= y < |lines| ==> |lines[y]| <= w
    ensures |lines| > 0 ==> exists y :: 0 <= y < |lines| && |lines[y]| == w
  {
    if |lines| == 0 then 0
    else
      var w := Width(lines[..|lines| - 1]);
      assert forall y :: 0 <= y < |lines| - 1 ==> lines[..|lines| - 1][y] == lines[y];
      if |lines[|lines| - 1]| > w then |lines[|lines| - 1]| else w
  }

  lemma InCellsOf(lines: seq<string>, x: int, y: int)
    ensures (x, y) in CellsOf(lines) <==> 0 <= y < |lines| && 0 <= x < |lines[y]|
  {
    if 0 <= y < |lines| && 0 <= x < |lines[y]| {
      assert (x, y) in (set y', x' | 0 <= y' < |lines| && 0 <= x' < |lines[y']| :: (x', y'));
    }
  }

  /** Some cell of the grid lies in column `x`. */
  ghost predicate ColumnPresent(cells: map<Cell, char>, x: int)
  {
    exists y :: (x, y) in cells
  }

  /** `getXRange().asArray()` is 0 .. width - 1: every cell lies left of the
    * width, and every column below it holds a cell. */
  lemma WidthIsXRange(lines: seq<string>)
    ensures forall p :: p in CellsOf(lines) ==> 0 <= p.0 < Width(lines)
    ensures forall x :: 0 <= x < Width(lines) ==> ColumnPresent(CellsOf(lines), x)
  {
    var w := Width(lines);
    forall p | p in CellsOf(lines)
      ensures 0 <= p.0 < w
    {
      InCellsOf(lines, p.0, p.1);
    }
    forall x | 0 <= x < w
      ensures ColumnPresent(CellsOf(lines), x)
    {
      var y :| 0 <= y < |lines| && |lines[y]| == w;
      InCellsOf(lines, x, y);
    }
  }

  ghost function Round(cells: map<Cell, char>): set<Cell>
  {
    set p | p in cells && cells[p] == 'O'
  }

  ghost function Cubes(cells: map<Cell, char>): set<Cell>
  {
    set p | p in cells && cells[p] == '#'
  }

  /** The round rock at (x, y) has empty space one step in `direction`. */
  predicate CanMove(cells: map<Cell, char>, x: int, y: int, direction: Cell)
  {
    && (x, y) in cells && cells[(x, y)] == 'O'
    && (x + direction.0, y + direction.1) in cells && cells[(x + direction.0, y + direction.1)] == '.'
  }

  /** No round rock in the scanned square can move. */
  predicate Settled(cells: map<Cell, char>, width: int, direction: Cell)
  {
    forall x, y :: 0 <= x < width && 0 <= y < width ==> !CanMove(cells, x, y, direction)
  }

  /** A move swaps a round rock with empty space: the cells present, the
    * cube rocks and the number of round rocks stay as they were. */
  lemma MoveKeeps(cells: map<Cell, char>, p: Cell, q: Cell)
    requires p in cells && cells[p] == 'O' && q in cells && cells[q] == '.'
    ensures cells[q := 'O'][p := '.'].Keys == cells.Keys
    ensures Cubes(cells[q := 'O'][p := '.']) == Cubes(cells)
    ensures Round(cells[q := 'O'][p := '.']) == Round(cells) - {p} + {q}
    ensures |Round(cells[q := 'O'][p := '.'])| == |Round(cells)|
  {
    var after := cells[q := 'O'][p := '.'];
    assert p != q;
    assert Round(after) == Round(cells) - {p} + {q} by {
      forall r | r in after
        ensures after[r] == 'O' <==> r in Round(cells) - {p} + {q}
      {
        if r != p && r != q {
          assert after[r] == cells[r];
        }
      }
    }
    assert Cubes(after) == Cubes(cells) by {
      forall r | r in after
        ensures after[r] == '#' <==> r in Cubes(cells)
      {
        if r != p && r != q {
          assert after[r] == cells[r];
        }
      }
    }
    var rest := Round(cells) - {p};
    assert |rest| == |Round(cells)| - 1;
    assert q !in rest;
  }

  // ---------------------------------------------------------------------------
  // calculateLoad
  // ---------------------------------------------------------------------------

  /** A round rock in row `y` weighs `width - y`. */
  function CellLoad(cells: map<Cell, char>, width: int, x: int, y: int): int
  {
    if (x, y) in cells && cells[(x, y)] == 'O' then width - y else 0
  }

  /** The inner `sumBy`: the first `n` cells of row `y`. */
  function RowLoad(cells: map<Cell, char>, width: int, y: int, n: nat): int
  {
    if n == 0 then 0 else RowLoad(cells, width, y, n - 1) + CellLoad(cells, width, n - 1, y)
  }

  /** The outer `sumBy`: the first `m` rows. */
  function GridLoad(cells: map<Cell, char>, width: nat, m: nat): int
  {
    if m == 0 then 0 else GridLoad(cells, width, m - 1) + RowLoad(cells, width, m - 1, width)
  }

  /** `calculateLoad`: the rows and columns both run over 0 .. width - 1. */
  function CalculateLoad(cells: map<Cell, char>, width: nat): int
  {
    GridLoad(cells, width, width)
  }

  /** Changing one cell of a row changes its sum by that cell's change. */
  lemma {:induction false} RowLoadUpdate(cells: map<Cell, char>, width: int, x0: int, y: int, c: char, n: nat)
    requires 0 <= x0 < n
    ensures RowLoad(cells[(x0, y) := c], width, y, n) - RowLoad(cells, width, y, n)
      == CellLoad(cells[(x0, y) := c], width, x0, y) - CellLoad(cells, width, x0, y)
  {
    if n - 1 != x0 {
      RowLoadUpdate(cells, width, x0, y, c, n - 1);
    } else {
      RowLoadSame(cells, cells[(x0, y) := c], width, y, n - 1);
    }
  }

  /** Two grids that agree on the first `n` cells of a row sum it alike. */
  lemma {:induction false} RowLoadSame(a: map<Cell, char>, b: map<Cell, char>, width: int, y: int, n: nat)
    requires forall x :: 0 <= x < n ==> CellLoad(a, width, x, y) == CellLoad(b, width, x, y)
    ensures RowLoad(a, width, y, n) == RowLoad(b, width, y, n)
  {
    if n > 0 {
      RowLoadSame(a, b, width, y, n - 1);
    }
  }

  /** Changing one cell inside the square changes the load by that cell's
    * change. */
  lemma {:induction false} GridLoadUpdate(cells: map<Cell, char>, width: nat, x0: int, y0: int, c: char, m: nat)
    requires 0 <= x0 < width && 0 <= y0 < m
    ensures GridLoad(cells[(x0, y0) := c], width, m) - GridLoad(cells, width, m)
      == CellLoad(cells[(x0, y0) := c], width, x0, y0) - CellLoad(cells, width, x0, y0)
  {
    var after := cells[(x0, y0) := c];
    if m - 1 != y0 {
      GridLoadUpdate(cells, width, x0, y0, c, m - 1);
      RowLoadSame(cells, after, width, m - 1, width);
    } else {
      GridLoadSame(cells, after, width, m - 1);
      RowLoadUpdate(cells, width, x0, y0, c, width);
    }
  }

  /** Two grids that agree on the rows other than `y0` and above `m` sum them
    * alike. */
  lemma {:induction false} GridLoadSame(a: map<Cell, char>, b: map<Cell, char>, width: nat, m: nat)
    requires forall x, y :: 0 <= x < width && 0 <= y < m ==> CellLoad(a, width, x, y) == CellLoad(b, width, x, y)
    ensures GridLoad(a, width, m) == GridLoad(b, width, m)
  {
    if m > 0 {
      GridLoadSame(a, b, width, m - 1);
      RowLoadSame(a, b, width, m - 1, width);
    }
  }

  /** Rolling one round rock one row north inside the square raises the load
    * by exactly 1: the load counts rows from the south edge. */
  lemma NorthMoveAddsOne(cells: map<Cell, char>, width: nat, x: int, y: int)
    requires 0 <= x < width && 1 <= y < width && CanMove(cells, x, y, (0, -1))
    ensures CalculateLoad(cells[(x, y - 1) := 'O'][(x, y) := '.'], width) == CalculateLoad(cells, width) + 1
  {
    var mid := cells[(x, y - 1) := 'O'];
    GridLoadUpdate(cells, width, x, y - 1, 'O', width);
    GridLoadUpdate(mid, width, x, y, '.', width);
  }

  /** A round rock outside the square does not count. */
  lemma LoadIgnoresOutside(cells: map<Cell, char>, width: nat, x: int, y: int, c: char)
    requires !(0 <= x < width && 0 <= y < width)
    ensures CalculateLoad(cells[(x, y) := c], width) == CalculateLoad(cells, width)
  {
    GridLoadSame(cells, cells[(x, y) := c], width, width);
  }

  // ---------------------------------------------------------------------------
  // The platform
  // ---------------------------------------------------------------------------

  class Platform {
    var cells: map<Cell, char>
    /** `getXRange().asArray()` is 0 .. width - 1; `roll` and `calculateLoad`
      * use it for the rows as well. */
    const width: nat

    constructor Load(lines: seq<string>)
      ensures cells == CellsOf(lines) && width == Width(lines)
    {
      cells := CellsOf(lines);
      width := Width(lines);
    }

    /** One pass over the square in reading order, moving each round rock
      * that has empty space in `direction` one step. */
    method Pass(direction: Cell) returns (movement: bool)
      modifies this
      ensures cells.Keys == old(cells).Keys && Cubes(cells) == Cubes(old(cells))
      ensures |Round(cells)| == |Round(old(cells))|
      ensures !movement ==> cells == old(cells) && Settled(cells, width, direction)
    {
      movement := false;
      for y := 0 to width
        invariant cells.Keys == old(cells).Keys && Cubes(cells) == Cubes(old(cells))
        invariant |Round(cells)| == |Round(old(cells))|
        invariant !movement ==> cells == old(cells)
        invariant !movement ==> forall x', y' :: 0 <= x' < width && 0 <= y' < y ==> !CanMove(cells, x', y', direction)
      {
        for x := 0 to width
          invariant cells.Keys == old(cells).Keys && Cubes(cells) == Cubes(old(cells))
          invariant |Round(cells)| == |Round(old(cells))|
          invariant !movement ==> cells == old(cells)
          invariant !movement ==> forall x', y' :: 0 <= x' < width && 0 <= y' < y ==> !CanMove(cells, x', y', direction)
          invariant !movement ==> forall x' :: 0 <= x' < x ==> !CanMove(cells, x', y, direction)
          {
          var xNew, yNew := x + direction.0, y + direction.1;
          if (x, y) in cells && cells[(x, y)] == 'O' && (xNew, yNew) in cells && cells[(xNew, yNew)] == '.' {
            MoveKeeps(cells, (x, y), (xNew, yNew));
            cells := cells[(xNew, yNew) := 'O'][(x, y) := '.'];
            movement := true;
          }
        }
      }
    }

    /** `roll`: passes until one makes no move, at most `fuel` of them; true
      * when the platform has settled. */
    method Roll(direction: Cell, fuel: nat) returns (settled: bool)
      modifies this
      ensures cells.Keys == old(cells).Keys && Cubes(cells) == Cubes(old(cells))
      ensures |Round(cells)| == |Round(old(cells))|
      ensures settled ==> Settled(cells, width, direction)
    {
      var movement := true;
      var passes := 0;
      while movement && passes < fuel
        invariant cells.Keys == old(cells).Keys && Cubes(cells) == Cubes(old(cells))
        invariant |Round(cells)| == |Round(old(cells))|
        invariant !movement ==> Settled(cells, width, direction)
        decreases fuel - passes
      {
        movement := Pass(direction);
        passes := passes + 1;
      }
      settled := !movement;
    }

    /** `calculateLoad` of the platform as it stands. */
    function NorthLoad(): int
      reads this
    {
      CalculateLoad(cells, width)
    }
  }

  /** Part 1: tilt north and weigh; a failure when the grid is empty, where
    * the range is undefined and the `assert` fails, or when the platform has
    * not settled within `fuel` passes. */
  method Part1(lines: seq<string>, fuel: nat) returns (r: Result<int>)
    ensures r.Success? ==> Width(NonEmpty(lines)) > 0
    ensures r.Success? ==> exists cells: map<Cell, char> ::
      && cells.Keys == CellsOf(NonEmpty(lines)).Keys
      && Cubes(cells) == Cubes(CellsOf(NonEmpty(lines)))
      && |Round(cells)| == |Round(CellsOf(NonEmpty(lines)))|
      && Settled(cells, Width(NonEmpty(lines)), (0, -1))
      && r.value == CalculateLoad(cells, Width(NonEmpty(lines)))
    ensures Width(NonEmpty(lines)) == 0 ==> r.Failure?
  {
    var platform := new Platform.Load(NonEmpty(lines));
    if platform.width == 0 {
      return Failure("empty grid");
    }
    var settled := platform.Roll((0, -1), fuel);
    if !settled {
      return Failure("not settled");
    }
    r := Success(platform.NorthLoad());
    assert platform.cells.Keys == CellsOf(NonEmpty(lines)).Keys;
  }
}
