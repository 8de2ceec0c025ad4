/** 2023 day 3: the engine schematic. The grid holds one character per cell,
    row `y` being input line `y`; a part number is a maximal run of digits
    on a row that touches a symbol on its neighbour ring. Part 1 sums the
    part numbers; part 2 sums, over the '*' symbols touched by exactly two
    part numbers, the products of the two. */
module Day2023_03 {
  import opened Common

  /** The symbol a part number touches, and where. */
  datatype Usage = Usage(indicator: char, x: int, y: int)

  datatype Part = Part(number: nat, usage: Usage)

  /** `grid.get(x, y)` on the grid `loadInput` builds from the lines: the
    * character, or undefined outside the lines. */
  function Get(lines: seq<string>, x: int, y: int): Option<char>
  {
    if 0 <= y < |lines| && 0 <= x < |lines[y]| then Some(lines[y][x]) else None
  }

  /** `isDigit` */
  predicate IsDigitCell(c: Option<char>)
  {
    c.Some? && IsDigit(c.value)
  }

  /** `isSymbol`: defined, not '.', and not a digit. */
  predicate IsSymbol(c: Option<char>)
  {
    c.Some? && c.value != '.' && !IsDigit(c.value)
  }

  // ---------------------------------------------------------------------------
  // Runs of digits
  // ---------------------------------------------------------------------------

  /** The end of the run of digits from `x`: the first position from `x` on
    * that is not a digit, or the row's length. */
  function RunEnd(row: string, x: nat): (e: nat)
    requires x <= |row|
    ensures x <= e <= |row|
    ensures forall i :: x <= i < e ==> IsDigit(row[i])
    ensures e == |row| || !IsDigit(row[e])
    decreases |row| - x
  {
    if x == |row| || !IsDigit(row[x]) then x else RunEnd(row, x + 1)
  }

  /** `[run.0, run.1)` lies in the row and holds only digits. */
  predicate DigitSpan(row: string, run: (nat, nat))
  {
    run.0 <= run.1 <= |row| && forall i :: run.0 <= i < run.1 ==> IsDigit(row[i])
  }

  /** The runs the scan from `x` finds, as `[xStart, xEnd)` pairs: at a digit
    * the run to its end, and the scan resumes at the run's end. Each run is
    * non-empty and cannot be extended to the right. */
  function Runs(row: string, x: nat): (r: seq<(nat, nat)>)
    requires x <= |row|
    ensures forall run :: run in r ==>
      && x <= run.0 < run.1
      && DigitSpan(row, run)
      && (run.1 == |row| || !IsDigit(row[run.1]))
    decreases |row| - x
  {
    if x == |row| then []
    else if IsDigit(row[x]) then
      var e := RunEnd(row, x + 1);
      [(x, e)] + Runs(row, e)
    else Runs(row, x + 1)
  }

  /** No run extends to the left: the position before it, unless it is where
    * the scan began, is not a digit. */
  lemma {:induction false} RunsLeftMaximal(row: string, x: nat)
    requires x <= |row|
    ensures forall run :: run in Runs(row, x) ==> run.0 == x || !IsDigit(row[run.0 - 1])
    decreases |row| - x
  {
    if x < |row| {
      if IsDigit(row[x]) {
        var e := RunEnd(row, x + 1);
        RunsLeftMaximal(row, e);
        forall run | run in Runs(row, e)
          ensures run.0 == e || !IsDigit(row[run.0 - 1])
        {
        }
      } else {
        RunsLeftMaximal(row, x + 1);
      }
    }
  }

  /** The runs come in order and apart. */
  lemma {:induction false} RunsOrdered(row: string, x: nat)
    requires x <= |row|
    ensures forall k, j :: 0 <= k < j < |Runs(row, x)| ==> Runs(row, x)[k].1 < Runs(row, x)[j].0
    decreases |row| - x
  {
    if x < |row| {
      if IsDigit(row[x]) {
        var e := RunEnd(row, x + 1);
        RunsOrdered(row, e);
        var rest := Runs(row, e);
        forall k | 0 <= k < |rest|
          ensures rest[k].0 > e
        {
          assert rest[k] in rest;
        }
      } else {
        RunsOrdered(row, x + 1);
      }
    }
  }

  /** Every digit from `x` on lies in some run. */
  lemma {:induction false} RunsCover(row: string, x: nat, i: nat)
    requires x <= i < |row| && IsDigit(row[i])
    ensures exists run :: run in Runs(row, x) && run.0 <= i < run.1
    decreases |row| - x
  {
    if IsDigit(row[x]) {
      var e := RunEnd(row, x + 1);
      if i < e {
        assert (x, e) in Runs(row, x);
      } else {
        RunsCover(row, e, i);
        var run :| run in Runs(row, e) && run.0 <= i < run.1;
        assert run in Runs(row, x);
      }
    } else {
      RunsCover(row, x + 1, i);
    }
  }

  /** The runs of a row are its maximal runs of digits, and every digit of
    * the row is in one. */
  lemma RunsMaximal(row: string)
    ensures forall run :: run in Runs(row, 0) ==>
      && run.0 < run.1
      && DigitSpan(row, run)
      && (run.1 == |row| || !IsDigit(row[run.1]))
      && (run.0 == 0 || !IsDigit(row[run.0 - 1]))
    ensures forall i :: 0 <= i < |row| && IsDigit(row[i]) ==>
      exists run :: run in Runs(row, 0) && run.0 <= i < run.1
  {
    RunsLeftMaximal(row, 0);
    forall i | 0 <= i < |row| && IsDigit(row[i])
      ensures exists run :: run in Runs(row, 0) && run.0 <= i < run.1
    {
      RunsCover(row, 0, i);
    }
  }

  // ---------------------------------------------------------------------------
  // The neighbour ring
  // ---------------------------------------------------------------------------

  /** `yChecks` at `xCheck`: the rows above and below, and the number's own
    * row at the two ends. */
  function YChecks(y: int, xStart: int, xEnd: int, xCheck: int): seq<int>
  {
    [y - 1, y + 1] + (if xCheck == xStart - 1 || xCheck == xEnd then [y] else [])
  }

  /** The cells of column `x` on the rows `ys`, in order. */
  function Column(x: int, ys: seq<int>): (r: seq<(int, int)>)
    ensures |r| == |ys| && forall j :: 0 <= j < |ys| ==> r[j] == (x, ys[j])
  {
    seq(|ys|, j requires 0 <= j < |ys| => (x, ys[j]))
  }

  /** The cells checked at `xCheck`. */
  function Checks(y: int, xStart: int, xEnd: int, xCheck: int): seq<(int, int)>
  {
    Column(xCheck, YChecks(y, xStart, xEnd, xCheck))
  }

  /** The ring from `xCheck` to `xEnd`, in checking order. */
  function RingFrom(y: int, xStart: int, xEnd: int, xCheck: int): seq<(int, int)>
    decreases xEnd + 1 - xCheck
  {
    if xCheck > xEnd then [] else Checks(y, xStart, xEnd, xCheck) + RingFrom(y, xStart, xEnd, xCheck + 1)
  }

  function Ring(y: int, xStart: int, xEnd: int): seq<(int, int)>
  {
    RingFrom(y, xStart, xEnd, xStart - 1)
  }

  /** The ring is the rows above and below from `xStart - 1` to `xEnd`, plus
    * the number's own row at those two columns. */
  lemma {:induction false} RingFromIs(y: int, xStart: int, xEnd: int, xCheck: int)
    ensures forall c :: c in RingFrom(y, xStart, xEnd, xCheck) <==>
      xCheck <= c.0 <= xEnd
      && (c.1 == y - 1 || c.1 == y + 1 || (c.1 == y && (c.0 == xStart - 1 || c.0 == xEnd)))
    decreases xEnd + 1 - xCheck
  {
    if xCheck <= xEnd {
      RingFromIs(y, xStart, xEnd, xCheck + 1);
      var ys := YChecks(y, xStart, xEnd, xCheck);
      assert forall c :: c in Checks(y, xStart, xEnd, xCheck) <==> c.0 == xCheck && c.1 in ys by {
        forall c: (int, int) | c.0 == xCheck && c.1 in ys
          ensures c in Checks(y, xStart, xEnd, xCheck)
        {
          var j :| 0 <= j < |ys| && ys[j] == c.1;
          assert Checks(y, xStart, xEnd, xCheck)[j] == c;
        }
      }
    }
  }

  lemma RingIs(y: int, xStart: int, xEnd: int)
    requires xStart < xEnd
    ensures forall c :: c in Ring(y, xStart, xEnd) <==>
      xStart - 1 <= c.0 <= xEnd
      && (c.1 == y - 1 || c.1 == y + 1 || (c.1 == y && (c.0 == xStart - 1 || c.0 == xEnd)))
  {
    RingFromIs(y, xStart, xEnd, xStart - 1);
  }

  /** The first cell of `cells` that holds a symbol, as a usage. */
  function FirstSymbol(lines: seq<string>, cells: seq<(int, int)>): Option<Usage>
  {
    if cells == [] then None
    else
      var (x, y) := cells[0];
      var c := Get(lines, x, y);
      if IsSymbol(c) then Some(Usage(c.value, x, y)) else FirstSymbol(lines, cells[1..])
  }

  /** The usage found is a symbol at one of the cells, and comes before
    * every other symbol there; none is found exactly when no cell holds a
    * symbol. */
  lemma {:induction false} FirstSymbolIs(lines: seq<string>, cells: seq<(int, int)>)
    ensures FirstSymbol(lines, cells).Some? ==>
      var u := FirstSymbol(lines, cells).value;
      && IsSymbol(Get(lines, u.x, u.y))
      && u.indicator == Get(lines, u.x, u.y).value
      && exists k :: 0 <= k < |cells| && cells[k] == (u.x, u.y) &&
           forall j :: 0 <= j < k ==> !IsSymbol(Get(lines, cells[j].0, cells[j].1))
    ensures FirstSymbol(lines, cells).None? <==>
      forall k :: 0 <= k < |cells| ==> !IsSymbol(Get(lines, cells[k].0, cells[k].1))
  {
    if cells != [] {
      FirstSymbolIs(lines, cells[1..]);
      var tail := cells[1..];
      assert forall k :: 1 <= k < |cells| ==> tail[k - 1] == cells[k];
      if !IsSymbol(Get(lines, cells[0].0, cells[0].1)) && FirstSymbol(lines, tail).Some? {
        var u := FirstSymbol(lines, tail).value;
        var k :| 0 <= k < |tail| && tail[k] == (u.x, u.y)
          && forall j :: 0 <= j < k ==> !IsSymbol(Get(lines, tail[j].0, tail[j].1));
        assert cells[k + 1] == (u.x, u.y);
      }
    }
  }

  lemma {:induction false} FirstSymbolAppend(lines: seq<string>, a: seq<(int, int)>, b: seq<(int, int)>)
    ensures FirstSymbol(lines, a + b) == if FirstSymbol(lines, a).Some? then FirstSymbol(lines, a) else FirstSymbol(lines, b)
  {
    if a == [] {
      assert a + b == b;
    } else {
      assert (a + b)[0] == a[0];
      assert (a + b)[1..] == a[1..] + b;
      FirstSymbolAppend(lines, a[1..], b);
    }
  }

  // ---------------------------------------------------------------------------
  // Parts
  // ---------------------------------------------------------------------------

  /** The part a run makes: its digits' value with the first symbol on its
    * ring, or none when the ring has no symbol. */
  function PartOf(lines: seq<string>, y: nat, run: (nat, nat)): seq<Part>
    requires y < |lines| && DigitSpan(lines[y], run)
  {
    var u := FirstSymbol(lines, Ring(y, run.0, run.1));
    if u.Some? then [Part(DigitsValue(lines[y][run.0..run.1]), u.value)] else []
  }

  /** The parts of the runs, in order. */
  function PartsOf(lines: seq<string>, y: nat, runs: seq<(nat, nat)>): seq<Part>
    requires y < |lines|
    requires forall run :: run in runs ==> DigitSpan(lines[y], run)
  {
    if runs == [] then [] else PartOf(lines, y, runs[0]) + PartsOf(lines, y, runs[1..])
  }

  /** The scan of row `y` from `x`: at a digit the part of its run, if any,
    * and the scan resumes at the run's end. */
  function ScanParts(lines: seq<string>, y: nat, x: nat): seq<Part>
    requires y < |lines| && x <= |lines[y]|
    decreases |lines[y]| - x
  {
    if x == |lines[y]| then []
    else if IsDigit(lines[y][x]) then
      var e := RunEnd(lines[y], x + 1);
      PartOf(lines, y, (x, e)) + ScanParts(lines, y, e)
    else ScanParts(lines, y, x + 1)
  }

  /** The parts found on row `y`. */
  function RowParts(lines: seq<string>, y: nat): seq<Part>
    requires y < |lines|
  {
    ScanParts(lines, y, 0)
  }

  /** The scan yields one part or none per run, in order: the parts of a row
    * come from its maximal runs of digits and from nothing else. */
  lemma {:induction false} ScanIsRuns(lines: seq<string>, y: nat, x: nat)
    requires y < |lines| && x <= |lines[y]|
    ensures ScanParts(lines, y, x) == PartsOf(lines, y, Runs(lines[y], x))
    decreases |lines[y]| - x
  {
    var row := lines[y];
    if x < |row| {
      if IsDigit(row[x]) {
        var e := RunEnd(row, x + 1);
        ScanIsRuns(lines, y, e);
        var runs := Runs(row, x);
        assert runs[0] == (x, e) && runs[1..] == Runs(row, e);
      } else {
        ScanIsRuns(lines, y, x + 1);
      }
    }
  }

  /** The parts of the first `n` rows, row by row. */
  function RowsParts(lines: seq<string>, n: nat): seq<Part>
    requires n <= |lines|
  {
    if n == 0 then [] else RowsParts(lines, n - 1) + RowParts(lines, n - 1)
  }

  /** `extractParts`: the source's assertion fails on an empty grid. */
  function Parts(lines: seq<string>): Result<seq<Part>>
  {
    if lines == [] then Failure("yArray") else Success(RowsParts(lines, |lines|))
  }

  /** The `xEnd` loop: the end of the digits from `xStart + 1`. */
  method FindRunEnd(row: string, xStart: nat) returns (xEnd: nat)
    requires xStart < |row|
    ensures xEnd == RunEnd(row, xStart + 1)
  {
    xEnd := xStart + 1;
    while xEnd <= |row| - 1
      invariant xStart + 1 <= xEnd <= |row|
      invariant RunEnd(row, xEnd) == RunEnd(row, xStart + 1)
      decreases |row| - xEnd
    {
      if IsDigit(row[xEnd]) {
        xEnd := xEnd + 1;
      } else {
        break;
      }
    }
  }

  /** `checkLoop`: the ring in order, stopping at the first symbol. */
  method FindSymbol(lines: seq<string>, y: int, xStart: int, xEnd: int) returns (u: Option<Usage>)
    requires xStart < xEnd
    ensures u == FirstSymbol(lines, Ring(y, xStart, xEnd))
  {
    var xCheck := xStart - 1;
    while xCheck <= xEnd
      invariant xCheck <= xEnd + 1
      invariant FirstSymbol(lines, Ring(y, xStart, xEnd)) == FirstSymbol(lines, RingFrom(y, xStart, xEnd, xCheck))
      decreases xEnd + 1 - xCheck
    {
      var yChecks := [y - 1, y + 1];
      if xCheck == xStart - 1 || xCheck == xEnd {
        yChecks := yChecks + [y];
      }
      assert yChecks == YChecks(y, xStart, xEnd, xCheck);
      FirstSymbolAppend(lines, Checks(y, xStart, xEnd, xCheck), RingFrom(y, xStart, xEnd, xCheck + 1));
      u := CheckColumn(lines, xCheck, yChecks);
      if u.Some? {
        return;
      }
      xCheck := xCheck + 1;
    }
    u := None;
  }

  /** The inner loop of `checkLoop`: the rows `yChecks` of column `xCheck`,
    * stopping at the first symbol. */
  method CheckColumn(lines: seq<string>, xCheck: int, yChecks: seq<int>) returns (u: Option<Usage>)
    ensures u == FirstSymbol(lines, Column(xCheck, yChecks))
  {
    ghost var cells := Column(xCheck, yChecks);
    for j := 0 to |yChecks|
      invariant FirstSymbol(lines, cells) == FirstSymbol(lines, cells[j..])
    {
      var checkValue := Get(lines, xCheck, yChecks[j]);
      assert cells[j..] == [cells[j]] + cells[j + 1..];
      if IsSymbol(checkValue) {
        return Some(Usage(checkValue.value, xCheck, yChecks[j]));
      }
    }
    u := None;
  }

  /** The `xStart` loop over one row. */
  method ScanRow(lines: seq<string>, y: nat) returns (parts: seq<Part>)
    requires y < |lines|
    ensures parts == RowParts(lines, y)
  {
    var row := lines[y];
    parts := [];
    var xStart := 0;
    while xStart <= |row| - 1
      invariant xStart <= |row|
      invariant parts + ScanParts(lines, y, xStart) == RowParts(lines, y)
      decreases |row| - xStart
    {
      if IsDigit(row[xStart]) {
        var xEnd := FindRunEnd(row, xStart);
        var partNumber := DigitsValue(row[xStart..xEnd]);
        var u := FindSymbol(lines, y, xStart, xEnd);
        ghost var found := PartOf(lines, y, (xStart, xEnd));
        ghost var rest := ScanParts(lines, y, xEnd);
        assert found == if u.Some? then [Part(partNumber, u.value)] else [];
        assert parts + (found + rest) == (parts + found) + rest;
        if u.Some? {
          parts := parts + [Part(partNumber, u.value)];
        }
        xStart := xEnd;
      } else {
        xStart := xStart + 1;
      }
    }
  }

  /** `extractParts`, row by row. */
  method ExtractParts(lines: seq<string>) returns (r: Result<seq<Part>>)
    ensures r == Parts(lines)
  {
    if |lines| == 0 {
      return Failure("yArray");
    }
    var parts: seq<Part> := [];
    for y := 0 to |lines|
      invariant parts == RowsParts(lines, y)
    {
      var rowParts := ScanRow(lines, y);
      parts := parts + rowParts;
    }
    return Success(parts);
  }

  // ---------------------------------------------------------------------------
  // Answers
  // ---------------------------------------------------------------------------

  function Numbers(parts: seq<Part>): (r: seq<int>)
    ensures |r| == |parts| && forall k :: 0 <= k < |parts| ==> r[k] == parts[k].number
  {
    seq(|parts|, k requires 0 <= k < |parts| => parts[k].number)
  }

  /** Part 1: the sum of the part numbers. */
  function Part1(lines: seq<string>): (r: Result<int>)
    ensures r.Success? <==> lines != []
  {
    match Parts(lines)
    case Failure(m) => Failure(m)
    case Success(parts) => Success(Sum(Numbers(parts)))
  }

  /** The parts whose symbol is '*'. */
  function GearParts(parts: seq<Part>): (r: seq<Part>)
    ensures forall p :: p in r <==> p in parts && p.usage.indicator == '*'
  {
    if parts == [] then []
    else
      var rest := GearParts(parts[1..]);
      assert forall p :: p in parts <==> p == parts[0] || p in parts[1..] by {
        assert parts == [parts[0]] + parts[1..];
      }
      if parts[0].usage.indicator == '*' then [parts[0]] + rest else rest
  }

  /** The group keys of `groupBy`, in order of first appearance. */
  function Locations(parts: seq<Part>): (r: seq<(int, int)>)
    ensures forall i, j :: 0 <= i < j < |r| ==> r[i] != r[j]
    ensures forall loc :: loc in r <==> exists k :: 0 <= k < |parts| && (parts[k].usage.x, parts[k].usage.y) == loc
  {
    if parts == [] then []
    else
      var init := Locations(parts[..|parts| - 1]);
      var last := parts[|parts| - 1];
      var loc := (last.usage.x, last.usage.y);
      assert forall k :: 0 <= k < |parts| - 1 ==> parts[..|parts| - 1][k] == parts[k];
      if loc in init then init else init + [loc]
  }

  /** The group of one key: the parts at that location, in order. */
  function Group(parts: seq<Part>, loc: (int, int)): (r: seq<Part>)
    ensures forall p :: p in r <==> p in parts && (p.usage.x, p.usage.y) == loc
  {
    if parts == [] then []
    else
      var rest := Group(parts[1..], loc);
      assert forall p :: p in parts <==> p == parts[0] || p in parts[1..] by {
        assert parts == [parts[0]] + parts[1..];
      }
      if (parts[0].usage.x, parts[0].usage.y) == loc then [parts[0]] + rest else rest
  }

  /** A group counts only when it holds exactly two parts. */
  function Ratio(group: seq<Part>): int
  {
    if |group| == 2 then group[0].number * group[1].number else 0
  }

  /** The ratio of each group. */
  function Ratios(parts: seq<Part>, locs: seq<(int, int)>): (r: seq<int>)
    ensures |r| == |locs|
    ensures forall k :: 0 <= k < |locs| ==> r[k] == Ratio(Group(parts, locs[k]))
  {
    seq(|locs|, k requires 0 <= k < |locs| => Ratio(Group(parts, locs[k])))
  }

  /** Part 2: over the '*' locations, the products of the pairs of parts. */
  function Part2(lines: seq<string>): (r: Result<int>)
    ensures r.Success? <==> lines != []
  {
    match Parts(lines)
    case Failure(m) => Failure(m)
    case Success(parts) =>
      var gears := GearParts(parts);
      Success(Sum(Ratios(gears, Locations(gears))))
  }
}
