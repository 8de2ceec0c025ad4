/** 2023 day 11: galaxies in an image. Every column and row inside the
    galaxies' extent that holds no galaxy expands: each galaxy moves on by
    `factor` for every empty line before it. The answer is the sum of the
    Manhattan distances over all pairs of expanded galaxies. */
module Day2023_11 {
  import opened Common

  type Location = (int, int)

  /** The grid of `loadInput` holds `true` at every '#' and nothing else. */
  predicate IsGalaxy(lines: seq<string>, x: int, y: int)
  {
    0 <= y < |lines| && 0 <= x < |lines[y]| && lines[y][x] == '#'
  }

  function Width(lines: seq<string>): (w: nat)
    ensures forall y :: 0 <= y < |lines| ==> |lines[y]| <= w
  {
    if |lines| == 0 then 0
    else
      var w := Width(lines[..|lines| - 1]);
      var last := |lines[|lines| - 1]|;
      if last > w then last else w
  }

  predicate ColumnHas(lines: seq<string>, x: int)
  {
    exists y | 0 <= y < |lines| :: IsGalaxy(lines, x, y)
  }

  predicate RowHas(lines: seq<string>, y: int)
  {
    0 <= y < |lines| && exists x | 0 <= x < |lines[y]| :: IsGalaxy(lines, x, y)
  }

  /** Per column and per row: whether it holds a galaxy. */
  function ColumnFlags(lines: seq<string>): (flags: seq<bool>)
    ensures |flags| == Width(lines)
  {
    seq(Width(lines), x requires 0 <= x < Width(lines) => ColumnHas(lines, x))
  }

  function RowFlags(lines: seq<string>): (flags: seq<bool>)
    ensures |flags| == |lines|
  {
    seq(|lines|, y requires 0 <= y < |lines| => RowHas(lines, y))
  }

  // ---------------------------------------------------------------------------
  // Extents and expanding lines, the same for columns and rows
  // ---------------------------------------------------------------------------

  /** The first flagged index from `i` on, or `|flags|`. */
  function FirstFlag(flags: seq<bool>, i: nat): (k: nat)
    requires i <= |flags|
    ensures i <= k <= |flags|
    ensures k < |flags| ==> flags[k]
    ensures forall j :: i <= j < k ==> !flags[j]
    decreases |flags| - i
  {
    if i == |flags| || flags[i] then i else FirstFlag(flags, i + 1)
  }

  /** The last flagged index below `n`, or -1. */
  function LastFlag(flags: seq<bool>, n: nat): (k: int)
    requires n <= |flags|
    ensures -1 <= k < n
    ensures k >= 0 ==> flags[k]
    ensures forall j :: k < j < n ==> !flags[j]
  {
    if n == 0 then -1 else if flags[n - 1] then n - 1 else LastFlag(flags, n - 1)
  }

  datatype Extent = Extent(lo: nat, hi: nat)

  /** `getXRange().asArray()` / `getYRange().asArray()`: from the first to
    * the last line holding a galaxy; none when there is no galaxy, which
    * the source's `assert` rejects. */
  function Span(flags: seq<bool>): (r: Option<Extent>)
    ensures r.None? <==> forall j :: 0 <= j < |flags| ==> !flags[j]
    ensures r.Some? ==> r.value.lo <= r.value.hi < |flags| && flags[r.value.lo] && flags[r.value.hi]
    ensures r.Some? ==> forall j :: 0 <= j < |flags| && flags[j] ==> r.value.lo <= j <= r.value.hi
  {
    var lo := FirstFlag(flags, 0);
    if lo == |flags| then None
    else
      var hi := LastFlag(flags, |flags|);
      Some(Extent(lo, hi))
  }

  /** `getExpandingXs` / `getExpandingYs`: the empty lines of `[lo, hi)`,
    * ascending. */
  function Expanding(flags: seq<bool>, lo: nat, hi: nat): seq<int>
    requires lo <= hi <= |flags|
  {
    if hi == lo then []
    else
      var before := Expanding(flags, lo, hi - 1);
      if flags[hi - 1] then before else before + [hi - 1]
  }

  /** The expanding lines are exactly the empty lines of `[lo, hi)`, in
    * ascending order. */
  lemma {:induction false} ExpandingShape(flags: seq<bool>, lo: nat, hi: nat)
    requires lo <= hi <= |flags|
    ensures var r := Expanding(flags, lo, hi);
      && (forall i :: 0 <= i < |r| ==> lo <= r[i] < hi && !flags[r[i]])
      && (forall e :: lo <= e < hi && !flags[e] ==> e in r)
      && (forall i, j :: 0 <= i < j < |r| ==> r[i] < r[j])
    decreases hi
  {
    if hi > lo {
      ExpandingShape(flags, lo, hi - 1);
    }
  }

  /** The number of values in `exp` below `v`: the filter's length. */
  function CountBelow(exp: seq<int>, v: int): (n: nat)
    ensures n <= |exp|
  {
    if |exp| == 0 then 0
    else CountBelow(exp[..|exp| - 1], v) + (if exp[|exp| - 1] < v then 1 else 0)
  }

  /** The number of empty lines in `[lo, v)`. */
  function EmptyBetween(flags: seq<bool>, lo: nat, v: nat): nat
    requires lo <= v <= |flags|
  {
    if v == lo then 0 else EmptyBetween(flags, lo, v - 1) + (if flags[v - 1] then 0 else 1)
  }

  /** A line inside the extent moves by the number of empty lines between
    * the start of the extent and itself. */
  lemma CountBelowIsEmptyBetween(flags: seq<bool>, lo: nat, hi: nat, v: nat)
    requires lo <= v <= hi <= |flags|
    ensures CountBelow(Expanding(flags, lo, hi), v) == EmptyBetween(flags, lo, v)
  {
    var a := Expanding(flags, lo, v);
    var b := Expanding(flags, v, hi);
    ExpandingSplit(flags, lo, v, hi);
    ExpandingShape(flags, lo, v);
    ExpandingShape(flags, v, hi);
    CountBelowAppend(a, b, v);
    CountBelowAll(a, v);
    CountBelowNone(b, v);
    ExpandingLength(flags, lo, v);
  }

  lemma {:induction false} ExpandingSplit(flags: seq<bool>, lo: nat, v: nat, hi: nat)
    requires lo <= v <= hi <= |flags|
    ensures Expanding(flags, lo, hi) == Expanding(flags, lo, v) + Expanding(flags, v, hi)
    decreases hi
  {
    if hi > v {
      ExpandingSplit(flags, lo, v, hi - 1);
      var a := Expanding(flags, lo, v);
      var b := Expanding(flags, v, hi - 1);
      if !flags[hi - 1] {
        assert a + b + [hi - 1] == a + (b + [hi - 1]);
      }
    } else {
      assert Expanding(flags, v, hi) == [];
      assert Expanding(flags, lo, hi) + [] == Expanding(flags, lo, hi);
    }
  }

  lemma {:induction false} ExpandingLength(flags: seq<bool>, lo: nat, v: nat)
    requires lo <= v <= |flags|
    ensures |Expanding(flags, lo, v)| == EmptyBetween(flags, lo, v)
    decreases v
  {
    if v > lo {
      ExpandingLength(flags, lo, v - 1);
    }
  }

  lemma {:induction false} CountBelowAppend(a: seq<int>, b: seq<int>, v: int)
    ensures CountBelow(a + b, v) == CountBelow(a, v) + CountBelow(b, v)
    decreases |b|
  {
    if |b| > 0 {
      CountBelowAppend(a, b[..|b| - 1], v);
      assert (a + b)[..|a + b| - 1] == a + b[..|b| - 1];
      assert (a + b)[|a + b| - 1] == b[|b| - 1];
    } else {
      assert a + b == a;
    }
  }

  lemma {:induction false} CountBelowAll(a: seq<int>, v: int)
    requires forall i :: 0 <= i < |a| ==> a[i] < v
    ensures CountBelow(a, v) == |a|
  {
    if |a| > 0 {
      CountBelowAll(a[..|a| - 1], v);
    }
  }

  lemma {:induction false} CountBelowNone(a: seq<int>, v: int)
    requires forall i :: 0 <= i < |a| ==> a[i] >= v
    ensures CountBelow(a, v) == 0
  {
    if |a| > 0 {
      CountBelowNone(a[..|a| - 1], v);
    }
  }

  /** Counting below a larger value never gives less. */
  lemma {:induction false} CountBelowMonotone(exp: seq<int>, v: int, w: int)
    requires v <= w
    ensures CountBelow(exp, v) <= CountBelow(exp, w)
  {
    if |exp| > 0 {
      CountBelowMonotone(exp[..|exp| - 1], v, w);
    }
  }

  // ---------------------------------------------------------------------------
  // Expansion
  // ---------------------------------------------------------------------------

  /** What the expansion needs: the extents and the expanding lines. */
  datatype Universe = Universe(xs: Extent, ys: Extent, expandingXs: seq<int>, expandingYs: seq<int>)

  function Analyse(lines: seq<string>): (r: Option<Universe>)
    ensures r.Some? ==> r.value.xs.lo <= r.value.xs.hi && r.value.ys.lo <= r.value.ys.hi
  {
    var columns := ColumnFlags(lines);
    var rows := RowFlags(lines);
    match (Span(columns), Span(rows))
    case (Some(xs), Some(ys)) =>
      Some(Universe(xs, ys, Expanding(columns, xs.lo, xs.hi + 1), Expanding(rows, ys.lo, ys.hi + 1)))
    case _ => None
  }

  /** A galaxy at `(x, y)` moves by `factor` for every expanding column
    * before `x` and every expanding row before `y`. */
  function ExpandPoint(u: Universe, p: Location, factor: int): Location
  {
    (p.0 + CountBelow(u.expandingXs, p.0) * factor, p.1 + CountBelow(u.expandingYs, p.1) * factor)
  }

  function ExpandAll(u: Universe, ps: seq<Location>, factor: int): (r: seq<Location>)
    ensures |r| == |ps|
    ensures forall i :: 0 <= i < |ps| ==> r[i] == ExpandPoint(u, ps[i], factor)
  {
    seq(|ps|, i requires 0 <= i < |ps| => ExpandPoint(u, ps[i], factor))
  }

  /** The galaxies of row `y` with `lo <= x < hi`, left to right. */
  function RowGalaxies(lines: seq<string>, y: int, lo: int, hi: int): seq<Location>
    decreases hi - lo
  {
    if hi <= lo then []
    else RowGalaxies(lines, y, lo, hi - 1) + (if IsGalaxy(lines, hi - 1, y) then [(hi - 1, y)] else [])
  }

  /** The galaxies of rows `ylo <= y < yhi` in reading order. */
  function Galaxies(lines: seq<string>, xs: Extent, ylo: int, yhi: int): seq<Location>
    decreases yhi - ylo
  {
    if yhi <= ylo then []
    else Galaxies(lines, xs, ylo, yhi - 1) + RowGalaxies(lines, yhi - 1, xs.lo, xs.hi + 1)
  }

  lemma {:induction false} RowGalaxiesMeaning(lines: seq<string>, y: int, lo: int, hi: int)
    ensures forall p :: p in RowGalaxies(lines, y, lo, hi) <==> p.1 == y && lo <= p.0 < hi && IsGalaxy(lines, p.0, p.1)
    decreases hi - lo
  {
    if hi > lo {
      RowGalaxiesMeaning(lines, y, lo, hi - 1);
    }
  }

  lemma {:induction false} GalaxiesMeaning(lines: seq<string>, xs: Extent, ylo: int, yhi: int)
    ensures forall p :: p in Galaxies(lines, xs, ylo, yhi) <==>
      ylo <= p.1 < yhi && xs.lo <= p.0 <= xs.hi && IsGalaxy(lines, p.0, p.1)
    decreases yhi - ylo
  {
    if yhi > ylo {
      GalaxiesMeaning(lines, xs, ylo, yhi - 1);
      RowGalaxiesMeaning(lines, yhi - 1, xs.lo, xs.hi + 1);
    }
  }

  /** Every galaxy of the image, in reading order: the extents hold them all. */
  function AllGalaxies(lines: seq<string>, u: Universe): seq<Location>
  {
    Galaxies(lines, u.xs, u.ys.lo, u.ys.hi + 1)
  }

  lemma AllGalaxiesAreAll(lines: seq<string>)
    requires Analyse(lines).Some?
    ensures forall x, y :: (x, y) in AllGalaxies(lines, Analyse(lines).value) <==> IsGalaxy(lines, x, y)
  {
    var u := Analyse(lines).value;
    GalaxiesMeaning(lines, u.xs, u.ys.lo, u.ys.hi + 1);
    forall x, y | IsGalaxy(lines, x, y)
      ensures (x, y) in AllGalaxies(lines, u)
    {
      assert ColumnFlags(lines)[x] && RowFlags(lines)[y];
    }
  }

  /** `expandUniverse`: row by row and column by column over the extents,
    * each galaxy expanded; a failure when there is no galaxy. */
  method ExpandUniverse(lines: seq<string>, factor: int) returns (r: Result<seq<Location>>)
    ensures r.Failure? <==> Analyse(lines).None?
    ensures r.Success? ==>
      var u := Analyse(lines).value;
      r.value == ExpandAll(u, AllGalaxies(lines, u), factor)
  {
    var maybe := Analyse(lines);
    if maybe.None? {
      return Failure("no galaxy");
    }
    var galaxies := ExpandGalaxies(lines, maybe.value, factor);
    return Success(galaxies);
  }

  /** The loops of `expandUniverse` over the extents. */
  method ExpandGalaxies(lines: seq<string>, u: Universe, factor: int) returns (galaxies: seq<Location>)
    requires u.xs.lo <= u.xs.hi && u.ys.lo <= u.ys.hi
    ensures galaxies == ExpandAll(u, AllGalaxies(lines, u), factor)
  {
    galaxies := [];
    for y := u.ys.lo to u.ys.hi + 1
      invariant galaxies == ExpandAll(u, Galaxies(lines, u.xs, u.ys.lo, y), factor)
    {
      var expandedY := y + CountBelow(u.expandingYs, y) * factor;
      ghost var before := galaxies;
      for x := u.xs.lo to u.xs.hi + 1
        invariant galaxies == before + ExpandAll(u, RowGalaxies(lines, y, u.xs.lo, x), factor)
      {
        ghost var done := RowGalaxies(lines, y, u.xs.lo, x);
        if IsGalaxy(lines, x, y) {
          var expandedX := x + CountBelow(u.expandingXs, x) * factor;
          assert RowGalaxies(lines, y, u.xs.lo, x + 1) == done + [(x, y)];
          ExpandAllAppend(u, done, [(x, y)], factor);
          assert ExpandAll(u, [(x, y)], factor) == [(expandedX, expandedY)];
          galaxies := galaxies + [(expandedX, expandedY)];
        } else {
          assert RowGalaxies(lines, y, u.xs.lo, x + 1) == done + [];
          assert done + [] == done;
        }
      }
      ghost var rows := Galaxies(lines, u.xs, u.ys.lo, y);
      ghost var row := RowGalaxies(lines, y, u.xs.lo, u.xs.hi + 1);
      assert Galaxies(lines, u.xs, u.ys.lo, y + 1) == rows + row;
      ExpandAllAppend(u, rows, row, factor);
    }
  }

  lemma ExpandAllAppend(u: Universe, a: seq<Location>, b: seq<Location>, factor: int)
    ensures ExpandAll(u, a + b, factor) == ExpandAll(u, a, factor) + ExpandAll(u, b, factor)
  {
  }

  /** With factor 0 no galaxy moves. */
  lemma ExpandByZero(u: Universe, ps: seq<Location>)
    ensures ExpandAll(u, ps, 0) == ps
  {
  }

  /** Expansion keeps the order of galaxies along each axis (factor >= 0). */
  lemma ExpandKeepsOrder(u: Universe, p: Location, q: Location, factor: int)
    requires factor >= 0
    ensures p.0 < q.0 ==> ExpandPoint(u, p, factor).0 < ExpandPoint(u, q, factor).0
    ensures p.1 < q.1 ==> ExpandPoint(u, p, factor).1 < ExpandPoint(u, q, factor).1
  {
    if p.0 < q.0 {
      CountBelowMonotone(u.expandingXs, p.0, q.0);
      MulMonotone(CountBelow(u.expandingXs, p.0), CountBelow(u.expandingXs, q.0), factor);
    }
    if p.1 < q.1 {
      CountBelowMonotone(u.expandingYs, p.1, q.1);
      MulMonotone(CountBelow(u.expandingYs, p.1), CountBelow(u.expandingYs, q.1), factor);
    }
  }

  lemma MulMonotone(a: int, b: int, f: int)
    requires a <= b && f >= 0
    ensures a * f <= b * f
  {
    MulNonNeg(b - a, f);
  }

  // ---------------------------------------------------------------------------
  // Distances
  // ---------------------------------------------------------------------------

  function Distance(a: Location, b: Location): nat
  {
    Abs(a.0 - b.0) + Abs(a.1 - b.1)
  }

  /** The distances from `a` to each of `rest`, summed. */
  function DistancesFrom(a: Location, rest: seq<Location>): int
  {
    if |rest| == 0 then 0 else Distance(a, rest[0]) + DistancesFrom(a, rest[1..])
  }

  /** The distances over all pairs `i < j`, summed. */
  function PairSum(galaxies: seq<Location>): int
  {
    if |galaxies| == 0 then 0 else DistancesFrom(galaxies[0], galaxies[1..]) + PairSum(galaxies[1..])
  }

  /** The number of expanding lines between two galaxies. */
  function Between(u: Universe, a: Location, b: Location): nat
  {
    Abs(CountBelow(u.expandingXs, a.0) - CountBelow(u.expandingXs, b.0))
      + Abs(CountBelow(u.expandingYs, a.1) - CountBelow(u.expandingYs, b.1))
  }

  /** An expanded distance is the original one plus `factor` for every
    * expanding line between the two galaxies. */
  lemma ExpandedDistance(u: Universe, a: Location, b: Location, factor: int)
    requires factor >= 0
    ensures Distance(ExpandPoint(u, a, factor), ExpandPoint(u, b, factor)) == Distance(a, b) + factor * Between(u, a, b)
  {
    var cx := Abs(CountBelow(u.expandingXs, a.0) - CountBelow(u.expandingXs, b.0));
    var cy := Abs(CountBelow(u.expandingYs, a.1) - CountBelow(u.expandingYs, b.1));
    AxisDistance(u.expandingXs, a.0, b.0, factor);
    AxisDistance(u.expandingYs, a.1, b.1, factor);
    Distribute(factor, cx, cy);
  }

  lemma AxisDistance(exp: seq<int>, v: int, w: int, factor: int)
    requires factor >= 0
    ensures Abs(v + CountBelow(exp, v) * factor - (w + CountBelow(exp, w) * factor))
      == Abs(v - w) + factor * Abs(CountBelow(exp, v) - CountBelow(exp, w))
  {
    if v <= w {
      CountBelowMonotone(exp, v, w);
    } else {
      CountBelowMonotone(exp, w, v);
    }
    AxisAbs(v, w, CountBelow(exp, v), CountBelow(exp, w), factor);
  }

  /** Moving two points apart along an axis by shifts in the same order as
    * the points adds the difference of the shifts to their distance. */
  lemma AxisAbs(v: int, w: int, cv: int, cw: int, f: int)
    requires f >= 0 && (v <= w ==> cv <= cw) && (w <= v ==> cw <= cv)
    ensures Abs(v + cv * f - (w + cw * f)) == Abs(v - w) + f * Abs(cv - cw)
  {
    assert v + cv * f - (w + cw * f) == (v - w) + (cv - cw) * f;
    if v <= w {
      MulNonNeg(cw - cv, f);
      assert (cv - cw) * f == -((cw - cv) * f);
    } else {
      MulNonNeg(cv - cw, f);
    }
  }

  lemma Distribute(f: int, a: int, b: int)
    ensures f * (a + b) == f * a + f * b
  {
  }

  /** The expanding lines between the galaxies of each pair, summed. */
  function PairBetween(u: Universe, galaxies: seq<Location>): int
  {
    if |galaxies| == 0 then 0 else BetweenFrom(u, galaxies[0], galaxies[1..]) + PairBetween(u, galaxies[1..])
  }

  function BetweenFrom(u: Universe, a: Location, rest: seq<Location>): int
  {
    if |rest| == 0 then 0 else Between(u, a, rest[0]) + BetweenFrom(u, a, rest[1..])
  }

  lemma {:induction false} DistancesFromLinear(u: Universe, a: Location, rest: seq<Location>, factor: int)
    requires factor >= 0
    ensures DistancesFrom(ExpandPoint(u, a, factor), ExpandAll(u, rest, factor))
      == DistancesFrom(a, rest) + factor * BetweenFrom(u, a, rest)
  {
    if |rest| > 0 {
      DistancesFromLinear(u, a, rest[1..], factor);
      ExpandedDistance(u, a, rest[0], factor);
      assert ExpandAll(u, rest, factor)[1..] == ExpandAll(u, rest[1..], factor);
      var first := Between(u, a, rest[0]);
      var others := BetweenFrom(u, a, rest[1..]);
      Distribute(factor, first, others);
    }
  }

  /** So the answer grows linearly with the expansion factor: part 2 is
    * part 1's sum of the original distances plus the factor times the
    * expanding lines crossed. */
  lemma {:induction false} PairSumLinear(u: Universe, galaxies: seq<Location>, factor: int)
    requires factor >= 0
    ensures PairSum(ExpandAll(u, galaxies, factor)) == PairSum(galaxies) + factor * PairBetween(u, galaxies)
  {
    if |galaxies| > 0 {
      PairSumLinear(u, galaxies[1..], factor);
      DistancesFromLinear(u, galaxies[0], galaxies[1..], factor);
      assert ExpandAll(u, galaxies, factor)[1..] == ExpandAll(u, galaxies[1..], factor);
      var first := BetweenFrom(u, galaxies[0], galaxies[1..]);
      var others := PairBetween(u, galaxies[1..]);
      Distribute(factor, first, others);
    }
  }

  lemma {:induction false} PairSumNonNegative(galaxies: seq<Location>)
    ensures PairSum(galaxies) >= 0
  {
    if |galaxies| > 0 {
      PairSumNonNegative(galaxies[1..]);
      DistancesFromNonNegative(galaxies[0], galaxies[1..]);
    }
  }

  lemma {:induction false} DistancesFromNonNegative(a: Location, rest: seq<Location>)
    ensures DistancesFrom(a, rest) >= 0
  {
    if |rest| > 0 {
      DistancesFromNonNegative(a, rest[1..]);
    }
  }

  /** `getDistances`: for each galaxy, the distances to the ones after it. */
  method GetDistances(galaxies: seq<Location>) returns (total: int)
    ensures total == PairSum(galaxies)
  {
    total := 0;
    var idx := |galaxies|;
    while idx > 0
      invariant 0 <= idx <= |galaxies|
      invariant total == PairSum(galaxies[idx..])
    {
      idx := idx - 1;
      var row := 0;
      var j := |galaxies|;
      while j > idx + 1
        invariant idx + 1 <= j <= |galaxies|
        invariant row == DistancesFrom(galaxies[idx], galaxies[j..])
      {
        j := j - 1;
        assert galaxies[j..][1..] == galaxies[j + 1..];
        row := row + Distance(galaxies[idx], galaxies[j]);
      }
      assert galaxies[idx..][1..] == galaxies[idx + 1..];
      total := total + row;
    }
  }

  /** Part 1 expands by 1, part 2 by 1000000 - 1. */
  method Solve(lines: seq<string>, factor: int) returns (r: Result<int>)
    ensures r.Failure? <==> Analyse(lines).None?
    ensures r.Success? ==>
      var u := Analyse(lines).value;
      r.value == PairSum(ExpandAll(u, AllGalaxies(lines, u), factor))
  {
    var galaxies := ExpandUniverse(lines, factor);
    if galaxies.Failure? {
      return Failure(galaxies.message);
    }
    var total := GetDistances(galaxies.value);
    return Success(total);
  }

  method Part1(lines: seq<string>) returns (r: Result<int>)
    ensures r.Success? ==> Analyse(lines).Some?
    ensures r.Success? && Analyse(lines).Some? ==>
      var u := Analyse(lines).value;
      r.value == PairSum(AllGalaxies(lines, u)) + PairBetween(u, AllGalaxies(lines, u))
  {
    r := Solve(lines, 1);
    if r.Success? {
      PairSumLinear(Analyse(lines).value, AllGalaxies(lines, Analyse(lines).value), 1);
    }
  }

  method Part2(lines: seq<string>) returns (r: Result<int>)
    ensures r.Success? ==> Analyse(lines).Some?
    ensures r.Success? && Analyse(lines).Some? ==>
      var u := Analyse(lines).value;
      r.value == PairSum(AllGalaxies(lines, u)) + 999999 * PairBetween(u, AllGalaxies(lines, u))
  {
    r := Solve(lines, 1000000 - 1);
    if r.Success? {
      PairSumLinear(Analyse(lines).value, AllGalaxies(lines, Analyse(lines).value), 999999);
    }
  }
}
