/** 2024 day 8: antennas on a map, each marked by its frequency's symbol.
    Every ordered pair of distinct antennas of one frequency casts
    antinodes: in part 1 one step beyond the first antenna, away from the
    second; in part 2 every step along that line from the first antenna
    until the map ends. Each part counts the distinct antinodes. */
module Day2024_08 {
  import opened Common

  /** A (row, column) position. */
  type Location = (int, int)

  /** A cell of the map: within the rows and within its own row. */
  predicate IsCell(grid: seq<string>, p: Location)
  {
    0 <= p.0 < |grid| && 0 <= p.1 < |grid[p.0]|
  }

  ghost function Cells(grid: seq<string>): set<Location>
  {
    set r, c | 0 <= r < |grid| && 0 <= c < |grid[r]| :: (r, c)
  }

  /** The bounds the antinodes are checked against: the rows and the first
    * row's width. */
  predicate InBounds(grid: seq<string>, p: Location)
  {
    0 <= p.0 < |grid| && 0 <= p.1 < |grid[0]|
  }

  // ---------------------------------------------------------------------------
  // loadInput: the frequency map
  // ---------------------------------------------------------------------------

  /** The cells of `row` (row number `r`) among its first `n` that hold
    * `symbol`, left to right. */
  function RowLocations(row: string, r: int, symbol: char, n: nat): seq<Location>
    requires n <= |row|
  {
    if n == 0 then []
    else RowLocations(row, r, symbol, n - 1) + if row[n - 1] == symbol then [(r, n - 1)] else []
  }

  /** The cells of the first `k` rows that hold `symbol`, in reading
    * order. */
  function GridLocations(grid: seq<string>, symbol: char, k: nat): seq<Location>
    requires k <= |grid|
  {
    if k == 0 then []
    else GridLocations(grid, symbol, k - 1) + RowLocations(grid[k - 1], k - 1, symbol, |grid[k - 1]|)
  }

  function Locations(grid: seq<string>, symbol: char): seq<Location>
  {
    GridLocations(grid, symbol, |grid|)
  }

  /** The cells holding `symbol` in the rows before `r` and in row `r`
    * before column `c`. */
  function Partial(grid: seq<string>, symbol: char, r: nat, c: nat): seq<Location>
    requires r < |grid| && c <= |grid[r]|
  {
    GridLocations(grid, symbol, r) + RowLocations(grid[r], r, symbol, c)
  }

  /** `m` maps each symbol other than '.' seen so far to its cells. */
  ghost predicate MapOf(grid: seq<string>, m: map<char, seq<Location>>, r: nat, c: nat)
    requires r < |grid| && c <= |grid[r]|
  {
    forall s :: (s in m <==> s != '.' && Partial(grid, s, r, c) != []) && (s in m ==> m[s] == Partial(grid, s, r, c))
  }

  /** Reading one more cell keeps the map right. */
  lemma MapStep(grid: seq<string>, m: map<char, seq<Location>>, m': map<char, seq<Location>>, r: nat, c: nat)
    requires r < |grid| && c < |grid[r]| && MapOf(grid, m, r, c)
    requires var cell := grid[r][c];
      m' == if cell == '.' then m else m[cell := (if cell in m then m[cell] else []) + [(r, c)]]
    ensures MapOf(grid, m', r, c + 1)
  {
    forall s
      ensures (s in m' <==> s != '.' && Partial(grid, s, r, c + 1) != []) && (s in m' ==> m'[s] == Partial(grid, s, r, c + 1))
    {
      assert Partial(grid, s, r, c + 1) == Partial(grid, s, r, c) + if grid[r][c] == s then [(r, c)] else [];
    }
  }

  /** `m` maps each symbol other than '.' in the first `k` rows to its
    * cells. */
  ghost predicate RowsOf(grid: seq<string>, m: map<char, seq<Location>>, k: nat)
    requires k <= |grid|
  {
    forall s :: (s in m <==> s != '.' && GridLocations(grid, s, k) != []) && (s in m ==> m[s] == GridLocations(grid, s, k))
  }

  /** A row starts where the rows before it end. */
  lemma MapRowStart(grid: seq<string>, m: map<char, seq<Location>>, r: nat)
    requires r < |grid| && RowsOf(grid, m, r)
    ensures MapOf(grid, m, r, 0)
  {
    forall s
      ensures Partial(grid, s, r, 0) == GridLocations(grid, s, r)
    {
    }
  }

  /** A finished row is a row more of the grid. */
  lemma MapRow(grid: seq<string>, m: map<char, seq<Location>>, r: nat)
    requires r < |grid| && MapOf(grid, m, r, |grid[r]|)
    ensures RowsOf(grid, m, r + 1)
  {
    forall s
      ensures GridLocations(grid, s, r + 1) == Partial(grid, s, r, |grid[r]|)
    {
    }
  }

  /** The inner loop of `frequencyMap` over one row. */
  method ScanRow(grid: seq<string>, m: map<char, seq<Location>>, r: nat) returns (m': map<char, seq<Location>>)
    requires r < |grid| && RowsOf(grid, m, r)
    ensures RowsOf(grid, m', r + 1)
  {
    var row := grid[r];
    MapRowStart(grid, m, r);
    m' := m;
    for c := 0 to |row|
      invariant MapOf(grid, m', r, c)
    {
      var cell := row[c];
      ghost var before := m';
      if cell != '.' {
        var locations := if cell in m' then m'[cell] else [];
        m' := m'[cell := locations + [(r, c)]];
      }
      MapStep(grid, before, m', r, c);
    }
    MapRow(grid, m', r);
  }

  /** The `frequencyMap` loop: every cell other than '.' appends its
    * location to its symbol's list. */
  method FrequencyMap(grid: seq<string>) returns (m: map<char, seq<Location>>)
    ensures forall s :: s in m <==> s != '.' && Locations(grid, s) != []
    ensures forall s :: s in m ==> m[s] == Locations(grid, s)
  {
    m := map[];
    for r := 0 to |grid|
      invariant RowsOf(grid, m, r)
    {
      m := ScanRow(grid, m, r);
    }
    assert RowsOf(grid, m, |grid|);
  }

  /** Location `a` comes before `b` in reading order. */
  predicate Before(a: Location, b: Location)
  {
    a.0 < b.0 || (a.0 == b.0 && a.1 < b.1)
  }

  lemma {:induction false} RowLocationsMeaning(row: string, r: int, symbol: char, n: nat)
    requires n <= |row|
    ensures var l := RowLocations(row, r, symbol, n);
      && (forall p :: p in l <==> p.0 == r && 0 <= p.1 < n && row[p.1] == symbol)
      && (forall i, j :: 0 <= i < j < |l| ==> l[i].0 == l[j].0 == r && l[i].1 < l[j].1)
  {
    if n > 0 {
      RowLocationsMeaning(row, r, symbol, n - 1);
    }
  }

  lemma {:induction false} GridLocationsMeaning(grid: seq<string>, symbol: char, k: nat)
    requires k <= |grid|
    ensures var l := GridLocations(grid, symbol, k);
      && (forall p :: p in l <==> 0 <= p.0 < k && IsCell(grid, p) && grid[p.0][p.1] == symbol)
      && (forall i, j :: 0 <= i < j < |l| ==> Before(l[i], l[j]))
  {
    if k > 0 {
      GridLocationsMeaning(grid, symbol, k - 1);
      var row := grid[k - 1];
      RowLocationsMeaning(row, k - 1, symbol, |row|);
      var old_, new_ := GridLocations(grid, symbol, k - 1), RowLocations(row, k - 1, symbol, |row|);
      var l := old_ + new_;
      forall i, j | 0 <= i < j < |l|
        ensures Before(l[i], l[j])
      {
        if j >= |old_| && i < |old_| {
          assert old_[i] in old_ && new_[j - |old_|] in new_;
        }
      }
    }
  }

  /** A symbol's list holds exactly the cells showing it, each once: its
    * entries are in reading order. */
  lemma LocationsMeaning(grid: seq<string>, symbol: char)
    ensures forall p :: p in Locations(grid, symbol) <==> IsCell(grid, p) && grid[p.0][p.1] == symbol
    ensures forall i, j :: 0 <= i < |Locations(grid, symbol)| && 0 <= j < |Locations(grid, symbol)| && i != j ==>
      Locations(grid, symbol)[i] != Locations(grid, symbol)[j]
  {
    GridLocationsMeaning(grid, symbol, |grid|);
    var l := Locations(grid, symbol);
    forall i, j | 0 <= i < |l| && 0 <= j < |l| && i != j
      ensures l[i] != l[j]
    {
      if i < j {
        assert Before(l[i], l[j]);
      } else {
        assert Before(l[j], l[i]);
      }
    }
  }

  // ---------------------------------------------------------------------------
  // locationPairs
  // ---------------------------------------------------------------------------

  /** `p` pairs the entries at two different indices of `locations`. */
  ghost predicate IsIndexPair(locations: seq<Location>, p: (Location, Location))
  {
    exists i, j :: 0 <= i < |locations| && 0 <= j < |locations| && i != j && p == (locations[i], locations[j])
  }

  /** `locationPairs`: every entry with every other entry, both ways round;
    * `!==` compares the location arrays by reference, so an entry is
    * paired with every entry at another index. */
  method LocationPairs(locations: seq<Location>) returns (pairs: seq<(Location, Location)>)
    ensures forall p :: p in pairs ==> IsIndexPair(locations, p)
    ensures forall i, j :: 0 <= i < |locations| && 0 <= j < |locations| && i != j ==> (locations[i], locations[j]) in pairs
  {
    pairs := [];
    for i := 0 to |locations|
      invariant forall p :: p in pairs ==> IsIndexPair(locations, p)
      invariant forall i', j :: 0 <= i' < i && 0 <= j < |locations| && i' != j ==> (locations[i'], locations[j]) in pairs
    {
      for j := 0 to |locations|
        invariant forall p :: p in pairs ==> IsIndexPair(locations, p)
        invariant forall i', j' :: 0 <= i' < i && 0 <= j' < |locations| && i' != j' ==> (locations[i'], locations[j']) in pairs
        invariant forall j' :: 0 <= j' < j && i != j' ==> (locations[i], locations[j']) in pairs
      {
        if i != j {
          assert IsIndexPair(locations, (locations[i], locations[j]));
          pairs := pairs + [(locations[i], locations[j])];
        }
      }
    }
  }

  // ---------------------------------------------------------------------------
  // Antinodes of one pair
  // ---------------------------------------------------------------------------

  /** The step from `b` to `a`. */
  function Sub(a: Location, b: Location): Location
  {
    (a.0 - b.0, a.1 - b.1)
  }

  /** `k` steps of `step` from `loc`. */
  function Shift(loc: Location, step: Location, k: nat): Location
  {
    (loc.0 + k * step.0, loc.1 + k * step.1)
  }

  /** The part 1 antinode of a pair: as far beyond `a` as `b` is before it. */
  function Antinode(a: Location, b: Location): (p: Location)
    ensures p == Shift(a, Sub(a, b), 1)
  {
    (a.0 + a.0 - b.0, a.1 + a.1 - b.1)
  }

  /** How far the walk from `loc` by `step` can still go within the bounds;
    * it shrinks with every step that stays within them. */
  function Room(grid: seq<string>, loc: Location, step: Location): nat
  {
    var width := if |grid| == 0 then 0 else |grid[0]|;
    if step.0 > 0 then (if loc.0 < |grid| then |grid| - loc.0 else 0)
    else if step.0 < 0 then (if loc.0 >= 0 then loc.0 + 1 else 0)
    else if step.1 > 0 then (if loc.1 < width then width - loc.1 else 0)
    else if loc.1 >= 0 then loc.1 + 1 else 0
  }

  /** The part 2 walk: `loc`, then every further step while it stays within
    * the bounds. A zero step (which no pair of distinct antennas has)
    * stops at once. */
  function Line(grid: seq<string>, loc: Location, step: Location): seq<Location>
    decreases Room(grid, loc, step)
  {
    var next := (loc.0 + step.0, loc.1 + step.1);
    if step == (0, 0) || !InBounds(grid, next) then [loc]
    else [loc] + Line(grid, next, step)
  }

  /** The walk from `loc` is the points `loc + k * step` for `k` from 0
    * while they are within the bounds (`loc` itself whatever it is), and
    * it stops at the first point past the bounds. */
  lemma {:induction false} LineMeaning(grid: seq<string>, loc: Location, step: Location)
    requires step != (0, 0)
    ensures var l := Line(grid, loc, step);
      && (forall k: nat :: k < |l| ==> l[k] == Shift(loc, step, k) && (k > 0 ==> InBounds(grid, l[k])))
      && !InBounds(grid, Shift(loc, step, |l|))
    decreases Room(grid, loc, step)
  {
    var next := (loc.0 + step.0, loc.1 + step.1);
    assert Shift(loc, step, 1) == next;
    if InBounds(grid, next) {
      LineMeaning(grid, next, step);
      var l, rest := Line(grid, loc, step), Line(grid, next, step);
      forall k: nat | k < |l|
        ensures l[k] == Shift(loc, step, k) && (k > 0 ==> InBounds(grid, l[k]))
      {
        if k > 0 {
          assert l[k] == rest[k - 1];
          ShiftSucc(loc, step, k - 1);
        }
      }
      ShiftSucc(loc, step, |rest|);
    }
  }

  lemma ShiftSucc(loc: Location, step: Location, k: nat)
    ensures Shift((loc.0 + step.0, loc.1 + step.1), step, k) == Shift(loc, step, k + 1)
  {
    assert (k + 1) * step.0 == k * step.0 + step.0;
    assert (k + 1) * step.1 == k * step.1 + step.1;
  }

  /** The part 1 check for one pair: its antinode when within the bounds. */
  method PairAntinode(grid: seq<string>, a: Location, b: Location) returns (found: set<Location>)
    ensures found == if InBounds(grid, Antinode(a, b)) then {Antinode(a, b)} else {}
  {
    var antinode := (a.0 + a.0 - b.0, a.1 + a.1 - b.1);
    if antinode.0 >= 0 && antinode.0 < |grid| && antinode.1 >= 0 && antinode.1 < |grid[0]| {
      return {antinode};
    }
    return {};
  }

  /** The part 2 `while (true)` walk for one pair, from `a` away from `b`. */
  method PairLine(grid: seq<string>, a: Location, b: Location) returns (found: set<Location>)
    requires a != b
    ensures found == set p | p in Line(grid, a, Sub(a, b))
  {
    var step := (a.0 - b.0, a.1 - b.1);
    var location := a;
    found := {};
    while true
      invariant found + (set p | p in Line(grid, location, step)) == set p | p in Line(grid, a, step)
      decreases Room(grid, location, step)
    {
      found := found + {location};
      var antinode := (location.0 + step.0, location.1 + step.1);
      if antinode.0 < 0 || antinode.0 >= |grid| || antinode.1 < 0 || antinode.1 >= |grid[0]| {
        return;
      }
      location := antinode;
    }
  }

  // ---------------------------------------------------------------------------
  // Both parts
  // ---------------------------------------------------------------------------

  /** Two distinct antennas of the same frequency. */
  ghost predicate IsPair(grid: seq<string>, a: Location, b: Location)
  {
    IsCell(grid, a) && IsCell(grid, b) && a != b && grid[a.0][a.1] == grid[b.0][b.1] && grid[a.0][a.1] != '.'
  }

  /** The antinodes one pair casts in part 1 (`resonant` false) or part 2. */
  function Contribution(grid: seq<string>, resonant: bool, a: Location, b: Location): set<Location>
  {
    if resonant then set p | p in Line(grid, a, Sub(a, b))
    else if InBounds(grid, Antinode(a, b)) then {Antinode(a, b)} else {}
  }

  /** The antinodes of the pairs whose frequency is among `symbols`. */
  ghost function AntinodesOf(grid: seq<string>, resonant: bool, symbols: set<char>): set<Location>
  {
    set a, b, p | a in Cells(grid) && b in Cells(grid) && IsPair(grid, a, b) && grid[a.0][a.1] in symbols
      && p in Contribution(grid, resonant, a, b) :: p
  }

  /** The antinodes of every pair. */
  ghost function Antinodes(grid: seq<string>, resonant: bool): set<Location>
  {
    set a, b, p | a in Cells(grid) && b in Cells(grid) && IsPair(grid, a, b) && p in Contribution(grid, resonant, a, b) :: p
  }

  /** The antinodes of the pairs in a list. */
  function PairsContribution(grid: seq<string>, resonant: bool, pairs: seq<(Location, Location)>): set<Location>
  {
    if pairs == [] then {}
    else PairsContribution(grid, resonant, pairs[..|pairs| - 1]) + Contribution(grid, resonant, pairs[|pairs| - 1].0, pairs[|pairs| - 1].1)
  }

  lemma {:induction false} PairsContributionMeaning(grid: seq<string>, resonant: bool, pairs: seq<(Location, Location)>)
    ensures forall p :: p in PairsContribution(grid, resonant, pairs) <==>
      exists k :: 0 <= k < |pairs| && p in Contribution(grid, resonant, pairs[k].0, pairs[k].1)
  {
    if pairs != [] {
      PairsContributionMeaning(grid, resonant, pairs[..|pairs| - 1]);
    }
  }

  /** The antinodes of a frequency's pairs are those of the pairs listed
    * for it. */
  lemma SymbolCovered(grid: seq<string>, resonant: bool, symbol: char, pairs: seq<(Location, Location)>, a: Location, b: Location, p: Location)
    requires forall i, j :: 0 <= i < |Locations(grid, symbol)| && 0 <= j < |Locations(grid, symbol)| && i != j ==>
      (Locations(grid, symbol)[i], Locations(grid, symbol)[j]) in pairs
    requires IsPair(grid, a, b) && grid[a.0][a.1] == symbol && p in Contribution(grid, resonant, a, b)
    ensures p in PairsContribution(grid, resonant, pairs)
  {
    var l := Locations(grid, symbol);
    LocationsMeaning(grid, symbol);
    PairsContributionMeaning(grid, resonant, pairs);
    var i :| 0 <= i < |l| && l[i] == a;
    var j :| 0 <= j < |l| && l[j] == b;
    var k :| 0 <= k < |pairs| && pairs[k] == (l[i], l[j]);
  }

  /** Each pair listed for a frequency is one of its pairs. */
  lemma PairsListed(grid: seq<string>, resonant: bool, symbol: char, pairs: seq<(Location, Location)>, p: Location)
      returns (a: Location, b: Location)
    requires symbol != '.'
    requires forall q :: q in pairs ==> IsIndexPair(Locations(grid, symbol), q)
    requires p in PairsContribution(grid, resonant, pairs)
    ensures a in Cells(grid) && b in Cells(grid) && IsPair(grid, a, b) && grid[a.0][a.1] == symbol
    ensures p in Contribution(grid, resonant, a, b)
  {
    var l := Locations(grid, symbol);
    LocationsMeaning(grid, symbol);
    PairsContributionMeaning(grid, resonant, pairs);
    var k :| 0 <= k < |pairs| && p in Contribution(grid, resonant, pairs[k].0, pairs[k].1);
    assert IsIndexPair(l, pairs[k]);
    var i, j :| 0 <= i < |l| && 0 <= j < |l| && i != j && pairs[k] == (l[i], l[j]);
    a, b := l[i], l[j];
    assert a in l && b in l;
  }

  /** The pairs listed for one symbol are exactly that frequency's pairs,
    * so their antinodes extend the set for the symbols done so far. */
  lemma SymbolDone(grid: seq<string>, resonant: bool, done: set<char>, symbol: char, pairs: seq<(Location, Location)>)
    requires symbol != '.'
    requires forall q :: q in pairs ==> IsIndexPair(Locations(grid, symbol), q)
    requires forall i, j :: 0 <= i < |Locations(grid, symbol)| && 0 <= j < |Locations(grid, symbol)| && i != j ==>
      (Locations(grid, symbol)[i], Locations(grid, symbol)[j]) in pairs
    ensures AntinodesOf(grid, resonant, done + {symbol}) == AntinodesOf(grid, resonant, done) + PairsContribution(grid, resonant, pairs)
  {
    forall p | p in AntinodesOf(grid, resonant, done + {symbol})
      ensures p in AntinodesOf(grid, resonant, done) + PairsContribution(grid, resonant, pairs)
    {
      var a, b :| a in Cells(grid) && b in Cells(grid) && IsPair(grid, a, b) && grid[a.0][a.1] in done + {symbol}
        && p in Contribution(grid, resonant, a, b);
      if grid[a.0][a.1] !in done {
        SymbolCovered(grid, resonant, symbol, pairs, a, b, p);
      }
    }
    forall p | p in PairsContribution(grid, resonant, pairs)
      ensures p in AntinodesOf(grid, resonant, done + {symbol})
    {
      var a, b := PairsListed(grid, resonant, symbol, pairs, p);
    }
  }

  /** The inner loop over one frequency's pairs. */
  method PairsAntinodes(grid: seq<string>, resonant: bool, pairs: seq<(Location, Location)>) returns (found: set<Location>)
    requires forall k :: 0 <= k < |pairs| ==> pairs[k].0 != pairs[k].1
    ensures found == PairsContribution(grid, resonant, pairs)
  {
    found := {};
    for k := 0 to |pairs|
      invariant found == PairsContribution(grid, resonant, pairs[..k])
    {
      var (a, b) := pairs[k];
      var more;
      if resonant {
        more := PairLine(grid, a, b);
      } else {
        more := PairAntinode(grid, a, b);
      }
      assert pairs[..k + 1][..k] == pairs[..k];
      found := found + more;
    }
    assert pairs[..|pairs|] == pairs;
  }

  /** The loops of `part1` and `part2` over the frequencies and their pairs,
    * collecting the antinodes of part 1 or, with `resonant`, part 2. */
  method Collect(grid: seq<string>, resonant: bool) returns (antinodes: set<Location>)
    ensures antinodes == Antinodes(grid, resonant)
  {
    var frequencies := FrequencyMap(grid);
    antinodes := {};
    var todo := frequencies.Keys;
    while todo != {}
      invariant todo <= frequencies.Keys
      invariant antinodes == AntinodesOf(grid, resonant, frequencies.Keys - todo)
      decreases todo
    {
      var symbol :| symbol in todo;
      var pairs := LocationPairs(frequencies[symbol]);
      DistinctPairs(grid, symbol, pairs);
      var found := PairsAntinodes(grid, resonant, pairs);
      SymbolDone(grid, resonant, frequencies.Keys - todo, symbol, pairs);
      antinodes := antinodes + found;
      assert frequencies.Keys - todo + {symbol} == frequencies.Keys - (todo - {symbol});
      todo := todo - {symbol};
    }
    AllSymbols(grid, resonant, frequencies.Keys);
  }

  /** A frequency's cells are distinct, so its pairs join distinct
    * antennas. */
  lemma DistinctPairs(grid: seq<string>, symbol: char, pairs: seq<(Location, Location)>)
    requires forall q :: q in pairs ==> IsIndexPair(Locations(grid, symbol), q)
    ensures forall k :: 0 <= k < |pairs| ==> pairs[k].0 != pairs[k].1
  {
    LocationsMeaning(grid, symbol);
    forall k | 0 <= k < |pairs|
      ensures pairs[k].0 != pairs[k].1
    {
      assert IsIndexPair(Locations(grid, symbol), pairs[k]);
    }
  }

  /** Every pair's frequency is a key of the frequency map. */
  lemma AllSymbols(grid: seq<string>, resonant: bool, symbols: set<char>)
    requires forall s :: s in symbols <==> s != '.' && Locations(grid, s) != []
    ensures AntinodesOf(grid, resonant, symbols) == Antinodes(grid, resonant)
  {
    forall a | IsCell(grid, a) && grid[a.0][a.1] != '.'
      ensures grid[a.0][a.1] in symbols
    {
      LocationsMeaning(grid, grid[a.0][a.1]);
    }
  }

  /** Part 1: the number of distinct antinodes one step beyond each pair. */
  method Part1(grid: seq<string>) returns (count: nat)
    ensures count == |Antinodes(grid, false)|
  {
    var antinodes := Collect(grid, false);
    count := |antinodes|;
  }

  /** Part 2: the number of distinct points on the walks of all pairs. */
  method Part2(grid: seq<string>) returns (count: nat)
    ensures count == |Antinodes(grid, true)|
  {
    var antinodes := Collect(grid, true);
    count := |antinodes|;
  }

  /** Every part 1 antinode is a part 2 antinode: it is the second point of
    * its pair's walk. */
  lemma Part1WithinPart2(grid: seq<string>)
    ensures Antinodes(grid, false) <= Antinodes(grid, true)
  {
    forall p | p in Antinodes(grid, false)
      ensures p in Antinodes(grid, true)
    {
      var a, b :| a in Cells(grid) && b in Cells(grid) && IsPair(grid, a, b) && p in Contribution(grid, false, a, b);
      LineMeaning(grid, a, Sub(a, b));
      assert Line(grid, a, Sub(a, b))[1] == p;
      assert p in Contribution(grid, true, a, b);
    }
  }

  /** In part 2 every antenna that shares its frequency with another is
    * itself an antinode. */
  lemma AntennasResonate(grid: seq<string>, a: Location, b: Location)
    requires IsPair(grid, a, b)
    ensures a in Antinodes(grid, true)
  {
    assert Line(grid, a, Sub(a, b))[0] == a;
    assert a in Contribution(grid, true, a, b);
    assert a in Cells(grid) && b in Cells(grid);
  }
}
