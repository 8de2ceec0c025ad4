/** 2022 day 15: sensors each know their closest beacon and so rule out
    every cell at most that Manhattan distance away. */
module Day2022_15 {
  import opened Common

  datatype Coordinate = Coordinate(x: int, y: int)

  /** `Sensor`: its location, its closest beacon and the distance between
      them, computed once by the constructor. */
  datatype Sensor = Sensor(location: Coordinate, beacon: Coordinate)
  {
    function Distance(): nat
    {
      CalculateDistance(location, beacon)
    }
  }

  /** `calculateDistance`: the Manhattan distance. */
  function CalculateDistance(a: Coordinate, b: Coordinate): (d: nat)
  {
    Abs(a.x - b.x) + Abs(a.y - b.y)
  }

  lemma DistanceProperties(a: Coordinate, b: Coordinate)
    ensures CalculateDistance(a, b) == CalculateDistance(b, a)
    ensures CalculateDistance(a, b) == 0 <==> a == b
  {
  }

  /** The sensor is at most its distance away from (x, y). */
  predicate Reaches(s: Sensor, x: int, y: int)
  {
    CalculateDistance(Coordinate(x, y), s.location) <= s.Distance()
  }

  /** `sensors.some(...)`: some sensor reaches (x, y). */
  predicate Covered(sensors: seq<Sensor>, x: int, y: int)
  {
    sensors != [] && (Reaches(sensors[0], x, y) || Covered(sensors[1..], x, y))
  }

  lemma {:induction false} CoveredMeaning(sensors: seq<Sensor>, x: int, y: int)
    ensures Covered(sensors, x, y) <==> exists k :: 0 <= k < |sensors| && Reaches(sensors[k], x, y)
  {
    if sensors != [] {
      CoveredMeaning(sensors[1..], x, y);
      if exists k :: 0 <= k < |sensors| && Reaches(sensors[k], x, y) {
        var k :| 0 <= k < |sensors| && Reaches(sensors[k], x, y);
        if k > 0 {
          assert Reaches(sensors[1..][k - 1], x, y);
        }
      }
    }
  }

  /** A sensor's own cell and its beacon's cell are always covered. */
  lemma SensorAndBeaconCovered(sensors: seq<Sensor>, k: nat)
    requires k < |sensors|
    ensures Covered(sensors, sensors[k].location.x, sensors[k].location.y)
    ensures Covered(sensors, sensors[k].beacon.x, sensors[k].beacon.y)
  {
    var s := sensors[k];
    assert CalculateDistance(Coordinate(s.location.x, s.location.y), s.location) == 0;
    DistanceProperties(s.location, s.beacon);
    assert Coordinate(s.beacon.x, s.beacon.y) == s.beacon;
    assert Reaches(s, s.location.x, s.location.y) && Reaches(s, s.beacon.x, s.beacon.y);
    CoveredMeaning(sensors, s.location.x, s.location.y);
    CoveredMeaning(sensors, s.beacon.x, s.beacon.y);
  }

  /** `scanRow`: for every x of lodash's `range(minX, maxX + 1)`, whether
      (x, y) is covered. */
  function ScanRow(sensors: seq<Sensor>, minX: int, maxX: int, y: int): (row: seq<bool>)
  {
    var xs := LodashRange(minX, maxX + 1);
    seq(|xs|, i requires 0 <= i < |xs| => Covered(sensors, xs[i], y))
  }

  /** For bounds in order, entry i of the scan is the cell at minX + i. */
  lemma ScanRowAscending(sensors: seq<Sensor>, minX: int, maxX: int, y: int)
    requires minX <= maxX + 1
    ensures var row := ScanRow(sensors, minX, maxX, y);
      |row| == maxX - minX + 1 && forall i :: 0 <= i < |row| ==> row[i] == Covered(sensors, minX + i, y)
  {
    LodashRangeAscending(minX, maxX + 1);
    var row := ScanRow(sensors, minX, maxX, y);
    var xs := LodashRange(minX, maxX + 1);
    forall i | 0 <= i < |row|
      ensures row[i] == Covered(sensors, minX + i, y)
    {
      assert xs[i] == minX + i;
    }
  }

  // ----- part 1 -----

  function LocationXs(sensors: seq<Sensor>): (r: seq<int>)
    ensures |r| == |sensors| && forall k :: 0 <= k < |sensors| ==> r[k] == sensors[k].location.x
  {
    seq(|sensors|, k requires 0 <= k < |sensors| => sensors[k].location.x)
  }

  function BeaconXs(sensors: seq<Sensor>): (r: seq<int>)
    ensures |r| == |sensors| && forall k :: 0 <= k < |sensors| ==> r[k] == sensors[k].beacon.x
  {
    seq(|sensors|, k requires 0 <= k < |sensors| => sensors[k].beacon.x)
  }

  function LeftEdges(sensors: seq<Sensor>): (r: seq<int>)
    ensures |r| == |sensors| && forall k :: 0 <= k < |sensors| ==> r[k] == sensors[k].location.x - sensors[k].Distance()
  {
    seq(|sensors|, k requires 0 <= k < |sensors| => sensors[k].location.x - sensors[k].Distance())
  }

  function RightEdges(sensors: seq<Sensor>): (r: seq<int>)
    ensures |r| == |sensors| && forall k :: 0 <= k < |sensors| ==> r[k] == sensors[k].location.x + sensors[k].Distance()
  {
    seq(|sensors|, k requires 0 <= k < |sensors| => sensors[k].location.x + sensors[k].Distance())
  }

  /** The smallest x worth scanning: the least sensor, beacon or left
      edge of a sensor's reach. */
  function MinX(sensors: seq<Sensor>): int
    requires sensors != []
  {
    Min(LocationXs(sensors) + BeaconXs(sensors) + LeftEdges(sensors))
  }

  /** The largest x worth scanning. */
  function MaxX(sensors: seq<Sensor>): int
    requires sensors != []
  {
    Max(LocationXs(sensors) + BeaconXs(sensors) + RightEdges(sensors))
  }

  /** The bounds lie beyond every beacon and every sensor's reach. */
  lemma Bounds(sensors: seq<Sensor>)
    requires sensors != []
    ensures forall k :: 0 <= k < |sensors| ==> MinX(sensors) <= sensors[k].location.x - sensors[k].Distance() && MinX(sensors) <= sensors[k].beacon.x
    ensures forall k :: 0 <= k < |sensors| ==> sensors[k].location.x + sensors[k].Distance() <= MaxX(sensors) && sensors[k].beacon.x <= MaxX(sensors)
  {
    var n := |sensors|;
    var lefts := LocationXs(sensors) + BeaconXs(sensors) + LeftEdges(sensors);
    var rights := LocationXs(sensors) + BeaconXs(sensors) + RightEdges(sensors);
    forall k | 0 <= k < n
      ensures MinX(sensors) <= sensors[k].location.x - sensors[k].Distance() && MinX(sensors) <= sensors[k].beacon.x
      ensures sensors[k].location.x + sensors[k].Distance() <= MaxX(sensors) && sensors[k].beacon.x <= MaxX(sensors)
    {
      assert lefts[n + k] == sensors[k].beacon.x && lefts[2 * n + k] == LeftEdges(sensors)[k];
      assert rights[n + k] == sensors[k].beacon.x && rights[2 * n + k] == RightEdges(sensors)[k];
    }
  }

  /** The x of every sensor and beacon on row y. */
  function OccupiedXs(sensors: seq<Sensor>, y: int): set<int>
  {
    if sensors == [] then {}
    else
      var s := sensors[|sensors| - 1];
      OccupiedXs(sensors[..|sensors| - 1], y)
        + (if s.location.y == y then {s.location.x} else {})
        + (if s.beacon.y == y then {s.beacon.x} else {})
  }

  /** Sensor k or its beacon sits at (x, y). */
  predicate OnRow(sensors: seq<Sensor>, k: int, x: int, y: int)
  {
    0 <= k < |sensors|
      && ((sensors[k].location.y == y && sensors[k].location.x == x) || (sensors[k].beacon.y == y && sensors[k].beacon.x == x))
  }

  lemma {:induction false} OccupiedXsMembers(sensors: seq<Sensor>, y: int)
    ensures forall x :: x in OccupiedXs(sensors, y) ==> exists k :: OnRow(sensors, k, x, y)
  {
    if sensors != [] {
      var n := |sensors| - 1;
      OccupiedXsMembers(sensors[..n], y);
      forall x | x in OccupiedXs(sensors, y)
        ensures exists k :: OnRow(sensors, k, x, y)
      {
        if x in OccupiedXs(sensors[..n], y) {
          var k :| OnRow(sensors[..n], k, x, y);
          assert sensors[..n][k] == sensors[k];
          assert OnRow(sensors, k, x, y);
        } else {
          assert OnRow(sensors, n, x, y);
        }
      }
    }
  }

  /** `part1`: the covered cells of row y minus the distinct x positions of
      sensors and beacons on it. A bound of 0 is falsy and fails the
      source's assertion, as does an empty sensor list. */
  method Part1(sensors: seq<Sensor>, y: int) returns (r: Result<int>)
    ensures r.Success? <==> sensors != [] && MinX(sensors) != 0 && MaxX(sensors) != 0
    ensures r.Success? ==> r.value == Count(ScanRow(sensors, MinX(sensors), MaxX(sensors), y), true) - |OccupiedXs(sensors, y)|
    ensures r.Success? ==> r.value >= 0
  {
    if sensors == [] {
      return Failure("no sensors");
    }
    var minX := MinX(sensors);
    var maxX := MaxX(sensors);
    if minX == 0 || maxX == 0 {
      return Failure("a bound is zero");
    }
    var occupied: set<int> := {};
    var i := 0;
    while i < |sensors|
      invariant 0 <= i <= |sensors|
      invariant occupied == OccupiedXs(sensors[..i], y)
    {
      assert sensors[..i + 1][..i] == sensors[..i];
      var sensor := sensors[i];
      if sensor.location.y == y {
        occupied := occupied + {sensor.location.x};
      }
      if sensor.beacon.y == y {
        occupied := occupied + {sensor.beacon.x};
      }
      i := i + 1;
    }
    assert sensors[..i] == sensors;
    Part1NonNegative(sensors, y);
    var scanResult := ScanRow(sensors, minX, maxX, y);
    r := Success(Count(scanResult, true) - |occupied|);
  }

  /** The covered x from lo to hi on row y. */
  ghost function CoveredXs(sensors: seq<Sensor>, lo: int, hi: int, y: int): set<int>
  {
    set x | lo <= x <= hi && Covered(sensors, x, y)
  }

  /** The covered entries of a scan are the covered cells it spans. */
  lemma {:induction false} CountCoveredXs(sensors: seq<Sensor>, lo: int, hi: int, y: int)
    requires lo <= hi + 1
    ensures Count(ScanRow(sensors, lo, hi, y), true) == |CoveredXs(sensors, lo, hi, y)|
    decreases hi - lo
  {
    var row := ScanRow(sensors, lo, hi, y);
    ScanRowAscending(sensors, lo, hi, y);
    if lo == hi + 1 {
      assert CoveredXs(sensors, lo, hi, y) == {};
    } else {
      var prev := ScanRow(sensors, lo, hi - 1, y);
      CountCoveredXs(sensors, lo, hi - 1, y);
      ScanRowAscending(sensors, lo, hi - 1, y);
      assert row[..|row| - 1] == prev;
      var s := CoveredXs(sensors, lo, hi - 1, y);
      assert hi !in s;
      if Covered(sensors, hi, y) {
        assert CoveredXs(sensors, lo, hi, y) == s + {hi};
      } else {
        assert CoveredXs(sensors, lo, hi, y) == s;
      }
    }
  }

  lemma SubsetCard(a: set<int>, b: set<int>)
    requires a <= b
    ensures |a| <= |b|
  {
    assert b == a + (b - a);
  }

  /** Every sensor and beacon on the row is a covered cell within the
      bounds, so part 1 is never negative. */
  lemma Part1NonNegative(sensors: seq<Sensor>, y: int)
    requires sensors != []
    ensures Count(ScanRow(sensors, MinX(sensors), MaxX(sensors), y), true) >= |OccupiedXs(sensors, y)|
  {
    var lo, hi := MinX(sensors), MaxX(sensors);
    Bounds(sensors);
    assert lo <= sensors[0].beacon.x <= hi;
    OccupiedXsMembers(sensors, y);
    forall x | x in OccupiedXs(sensors, y)
      ensures x in CoveredXs(sensors, lo, hi, y)
    {
      var k :| OnRow(sensors, k, x, y);
      SensorAndBeaconCovered(sensors, k);
    }
    SubsetCard(OccupiedXs(sensors, y), CoveredXs(sensors, lo, hi, y));
    CountCoveredXs(sensors, lo, hi, y);
  }

  // ----- part 2 -----

  /** `row.indexOf(false)`. */
  function IndexOfFalse(row: seq<bool>): (r: int)
    ensures r == -1 || (0 <= r < |row| && !row[r])
  {
    if row == [] then -1
    else if !row[0] then 0
    else var r := IndexOfFalse(row[1..]); if r == -1 then -1 else r + 1
  }

  /** -1 exactly when no entry is false; otherwise every earlier entry is
      true. */
  lemma {:induction false} IndexOfFalseMeaning(row: seq<bool>)
    ensures IndexOfFalse(row) == -1 ==> forall i :: 0 <= i < |row| ==> row[i]
    ensures IndexOfFalse(row) != -1 ==> forall i :: 0 <= i < IndexOfFalse(row) ==> row[i]
  {
    if row != [] && row[0] {
      IndexOfFalseMeaning(row[1..]);
      assert forall i :: 1 <= i < |row| ==> row[i] == row[1..][i - 1];
    }
  }

  /** The first uncovered cell of the square from row y on, scanning row by
      row: its index within the row and its y. */
  function FirstUncovered(sensors: seq<Sensor>, lo: int, hi: int, y: int): Option<(nat, int)>
    decreases hi - y
  {
    if y > hi then None
    else
      var x := IndexOfFalse(ScanRow(sensors, lo, hi, y));
      if x != -1 then Some((x, y)) else FirstUncovered(sensors, lo, hi, y + 1)
  }

  /** Every cell of row y from lo to hi is covered. */
  ghost predicate RowCovered(sensors: seq<Sensor>, lo: int, hi: int, y: int)
  {
    forall xx :: lo <= xx <= hi ==> Covered(sensors, xx, y)
  }

  /** Every cell of the rows y..yEnd - 1 from lo to hi is covered. */
  ghost predicate RowsCovered(sensors: seq<Sensor>, lo: int, hi: int, y: int, yEnd: int)
    decreases yEnd - y
  {
    y >= yEnd || (RowCovered(sensors, lo, hi, y) && RowsCovered(sensors, lo, hi, y + 1, yEnd))
  }

  lemma {:induction false} RowsCoveredAll(sensors: seq<Sensor>, lo: int, hi: int, y: int, yEnd: int)
    ensures RowsCovered(sensors, lo, hi, y, yEnd) <==> forall yy :: y <= yy < yEnd ==> RowCovered(sensors, lo, hi, yy)
    decreases yEnd - y
  {
    if y < yEnd {
      RowsCoveredAll(sensors, lo, hi, y + 1, yEnd);
    }
  }

  /** An uncovered cell of a row found by its scan. */
  lemma RowScanFound(sensors: seq<Sensor>, lo: int, hi: int, y: int)
    requires lo <= hi
    ensures var x := IndexOfFalse(ScanRow(sensors, lo, hi, y));
      && (x != -1 ==> x <= hi - lo && !Covered(sensors, lo + x, y))
      && (x != -1 ==> RowCovered(sensors, lo, lo + x - 1, y))
  {
    var row := ScanRow(sensors, lo, hi, y);
    ScanRowAscending(sensors, lo, hi, y);
    IndexOfFalseMeaning(row);
    var x := IndexOfFalse(row);
    if x != -1 {
      assert !row[x];
      forall xx | lo <= xx <= lo + x - 1
        ensures Covered(sensors, xx, y)
      {
        assert row[xx - lo];
      }
    }
  }

  /** The scan of a row finds nothing exactly when the row is covered. */
  lemma RowScanNone(sensors: seq<Sensor>, lo: int, hi: int, y: int)
    requires lo <= hi
    ensures IndexOfFalse(ScanRow(sensors, lo, hi, y)) == -1 <==> RowCovered(sensors, lo, hi, y)
  {
    var row := ScanRow(sensors, lo, hi, y);
    ScanRowAscending(sensors, lo, hi, y);
    IndexOfFalseMeaning(row);
    var x := IndexOfFalse(row);
    if x == -1 {
      forall xx | lo <= xx <= hi
        ensures Covered(sensors, xx, y)
      {
        assert row[xx - lo];
      }
    } else {
      assert !row[x] && lo <= lo + x <= hi;
      assert !Covered(sensors, lo + x, y);
    }
  }

  /** None exactly when every cell of the rows y..hi is covered. */
  lemma {:induction false} FirstUncoveredNone(sensors: seq<Sensor>, lo: int, hi: int, y: int)
    requires lo <= hi
    ensures FirstUncovered(sensors, lo, hi, y).None? <==> RowsCovered(sensors, lo, hi, y, hi + 1)
    decreases hi - y
  {
    if y <= hi {
      RowScanNone(sensors, lo, hi, y);
      FirstUncoveredNone(sensors, lo, hi, y + 1);
    }
  }

  /** The found cell is uncovered, and every cell before it, row by row, is
      covered. */
  lemma {:induction false} FirstUncoveredSome(sensors: seq<Sensor>, lo: int, hi: int, y: int)
    requires lo <= hi && FirstUncovered(sensors, lo, hi, y).Some?
    ensures var (k, yy) := FirstUncovered(sensors, lo, hi, y).value;
      && y <= yy <= hi && k <= hi - lo && !Covered(sensors, lo + k, yy)
      && RowCovered(sensors, lo, lo + k - 1, yy)
      && RowsCovered(sensors, lo, hi, y, yy)
    decreases hi - y
  {
    RowScanFound(sensors, lo, hi, y);
    RowScanNone(sensors, lo, hi, y);
    if IndexOfFalse(ScanRow(sensors, lo, hi, y)) == -1 {
      FirstUncoveredSome(sensors, lo, hi, y + 1);
    }
  }

  /** The tuning value the source reports: the index within the row times
      4000000 plus y, or -1. */
  function Tuning(f: Option<(nat, int)>): int
  {
    match f
    case None => -1
    case Some((x, y)) => x * 4000000 + y
  }

  /** `part2` as written: it reports the index of the first uncovered cell
      within its row, which is its x only when the square starts at 0. */
  method Part2(sensors: seq<Sensor>, minXY: int, maxXY: int) returns (r: int)
    ensures r == Tuning(FirstUncovered(sensors, minXY, maxXY, minXY))
  {
    var y := minXY;
    while y <= maxXY
      invariant minXY <= y || maxXY < minXY
      invariant FirstUncovered(sensors, minXY, maxXY, y) == FirstUncovered(sensors, minXY, maxXY, minXY)
      decreases maxXY - y
    {
      var row := ScanRow(sensors, minXY, maxXY, y);
      var x := IndexOfFalse(row);
      if x != -1 {
        return x * 4000000 + y;
      }
      y := y + 1;
    }
    return -1;
  }

  /** With no sensors and the one-cell square at (5, 5), the cell (5, 5)
      is uncovered, yet the report is that of x = 0. */
  lemma Part2IndexNotCoordinate()
    ensures Tuning(FirstUncovered([], 5, 5, 5)) == 5
    ensures !Covered([], 5, 5) && 5 * 4000000 + 5 != 5
  {
    var row := ScanRow([], 5, 5, 5);
    ScanRowAscending([], 5, 5, 5);
    assert !row[0];
    assert FirstUncovered([], 5, 5, 5) == Some((0, 5));
  }

  /** The tuning value of the uncovered cell itself: its x coordinate
      times 4000000 plus its y. */
  function CellTuning(lo: int, f: Option<(nat, int)>): int
  {
    match f
    case None => -1
    case Some((k, y)) => (lo + k) * 4000000 + y
  }

  /** `part2` reporting the x coordinate of the first uncovered cell. */
  method Part2Corrected(sensors: seq<Sensor>, minXY: int, maxXY: int) returns (r: int)
    ensures r == CellTuning(minXY, FirstUncovered(sensors, minXY, maxXY, minXY))
  {
    var y := minXY;
    while y <= maxXY
      invariant minXY <= y || maxXY < minXY
      invariant FirstUncovered(sensors, minXY, maxXY, y) == FirstUncovered(sensors, minXY, maxXY, minXY)
      decreases maxXY - y
    {
      var row := ScanRow(sensors, minXY, maxXY, y);
      var x := IndexOfFalse(row);
      if x != -1 {
        return (minXY + x) * 4000000 + y;
      }
      y := y + 1;
    }
    return -1;
  }

  /** The corrected report names an uncovered cell of the square, and
      only when every earlier cell is covered; from 0 it agrees with the
      source. */
  lemma Part2CorrectedFinds(sensors: seq<Sensor>, minXY: int, maxXY: int)
    requires minXY <= maxXY
    ensures var f := FirstUncovered(sensors, minXY, maxXY, minXY);
      && (f.Some? ==> exists x, y :: (&& minXY <= x <= maxXY && minXY <= y <= maxXY
                                      && CellTuning(minXY, f) == x * 4000000 + y && !Covered(sensors, x, y)))
      && (f.None? ==> forall y, x :: minXY <= y <= maxXY && minXY <= x <= maxXY ==> Covered(sensors, x, y))
      && (minXY == 0 ==> CellTuning(minXY, f) == Tuning(f))
  {
    FirstUncoveredNone(sensors, minXY, maxXY, minXY);
    RowsCoveredAll(sensors, minXY, maxXY, minXY, maxXY + 1);
    var f := FirstUncovered(sensors, minXY, maxXY, minXY);
    if f.None? {
      forall y, x | minXY <= y <= maxXY && minXY <= x <= maxXY
        ensures Covered(sensors, x, y)
      {
        assert RowCovered(sensors, minXY, maxXY, y);
      }
    } else {
      FirstUncoveredSome(sensors, minXY, maxXY, minXY);
      var (k, y) := f.value;
      assert CellTuning(minXY, f) == (minXY + k) * 4000000 + y;
    }
  }
}
