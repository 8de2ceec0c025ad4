/** 2024 day 2: reports of levels. A report is safe when its levels all
    rise or all fall, by one to three at each step; the dampener also
    accepts a report that one removed level makes safe. */
module Day2024_02 {
  import opened Common

  type Report = seq<int>

  /** `report.slice(1).map((value, index) => value - report[index])`. */
  function Diffs(report: Report): (diffs: seq<int>)
    ensures |report| > 0 ==> |diffs| == |report| - 1
    ensures |report| == 0 ==> diffs == []
  {
    if |report| == 0 then []
    else seq(|report| - 1, i requires 0 <= i < |report| - 1 => report[i + 1] - report[i])
  }

  /** `isReportSafe`: every difference is 1 to 3 in size with the sign of
    * the first. */
  predicate IsReportSafe(report: Report)
  {
    var diffs := Diffs(report);
    forall k :: 0 <= k < |diffs| ==> 1 <= Abs(diffs[k]) <= 3 && Sign(diffs[k]) == Sign(diffs[0])
  }

  /** Levels rising by 1 to 3 at each step. */
  predicate Rising(report: Report)
  {
    forall i :: 0 <= i < |report| - 1 ==> 1 <= report[i + 1] - report[i] <= 3
  }

  /** Levels falling by 1 to 3 at each step. */
  predicate Falling(report: Report)
  {
    forall i :: 0 <= i < |report| - 1 ==> 1 <= report[i] - report[i + 1] <= 3
  }

  /** A report is safe exactly when it rises throughout or falls throughout;
    * so a report of fewer than two levels is safe. */
  lemma SafeMeaning(report: Report)
    ensures IsReportSafe(report) <==> Rising(report) || Falling(report)
    ensures |report| < 2 ==> IsReportSafe(report)
  {
    var diffs := Diffs(report);
    if |report| >= 2 {
      assert diffs[0] == report[1] - report[0];
      if IsReportSafe(report) {
        if diffs[0] > 0 {
          forall i | 0 <= i < |report| - 1
            ensures 1 <= report[i + 1] - report[i] <= 3
          {
            assert diffs[i] == report[i + 1] - report[i];
          }
        } else {
          forall i | 0 <= i < |report| - 1
            ensures 1 <= report[i] - report[i + 1] <= 3
          {
            assert diffs[i] == report[i + 1] - report[i];
          }
        }
      }
      if Rising(report) {
        forall k | 0 <= k < |diffs|
          ensures 1 <= Abs(diffs[k]) <= 3 && Sign(diffs[k]) == Sign(diffs[0])
        {
          assert diffs[k] == report[k + 1] - report[k];
        }
      }
      if Falling(report) {
        forall k | 0 <= k < |diffs|
          ensures 1 <= Abs(diffs[k]) <= 3 && Sign(diffs[k]) == Sign(diffs[0])
        {
          assert diffs[k] == report[k + 1] - report[k];
        }
      }
    }
  }

  /** A slice of consecutive levels of a safe report is safe. */
  lemma SafeSlice(report: Report, lo: nat, hi: nat)
    requires lo <= hi <= |report| && IsReportSafe(report)
    ensures IsReportSafe(report[lo..hi])
  {
    SafeMeaning(report);
    SafeMeaning(report[lo..hi]);
    var part := report[lo..hi];
    if Rising(report) {
      forall i | 0 <= i < |part| - 1
        ensures 1 <= part[i + 1] - part[i] <= 3
      {
        assert part[i] == report[lo + i] && part[i + 1] == report[lo + i + 1];
      }
    } else {
      forall i | 0 <= i < |part| - 1
        ensures 1 <= part[i] - part[i + 1] <= 3
      {
        assert part[i] == report[lo + i] && part[i + 1] == report[lo + i + 1];
      }
    }
  }

  /** The report without level `idx`: one level shorter. */
  function Without(report: Report, idx: nat): (r: Report)
    requires idx < |report|
    ensures |r| == |report| - 1
    ensures forall i :: 0 <= i < |r| ==> r[i] == if i < idx then report[i] else report[i + 1]
  {
    report[..idx] + report[idx + 1..]
  }

  /** The dampened check of part 2. */
  predicate Tolerable(report: Report)
  {
    IsReportSafe(report) || exists idx :: 0 <= idx < |report| && IsReportSafe(Without(report, idx))
  }

  /** The filter of part 2: safe, or safe once the loop finds a level to
    * remove. */
  method IsTolerable(report: Report) returns (ok: bool)
    ensures ok == Tolerable(report)
  {
    if IsReportSafe(report) {
      return true;
    }
    for idx := 0 to |report|
      invariant forall j :: 0 <= j < idx ==> !IsReportSafe(Without(report, j))
    {
      var partialReport := Without(report, idx);
      if IsReportSafe(partialReport) {
        return true;
      }
    }
    return false;
  }

  /** A safe report of at least one level stays safe without its first or
    * its last level, so removing a level never spoils it. */
  lemma SafeIsTolerable(report: Report)
    requires IsReportSafe(report) && |report| > 0
    ensures IsReportSafe(Without(report, 0)) && IsReportSafe(Without(report, |report| - 1))
  {
    var first, last := Without(report, 0), Without(report, |report| - 1);
    assert first == report[1..|report|] by {
      assert report[..0] == [];
    }
    assert last == report[0..|report| - 1] by {
      assert report[|report|..] == [];
    }
    SafeSlice(report, 1, |report|);
    SafeSlice(report, 0, |report| - 1);
  }

  /** A report with a single bad level at the end is tolerable but not
    * safe. */
  lemma DampenerHelps()
    ensures !IsReportSafe([1, 2, 9]) && Tolerable([1, 2, 9])
  {
    var r: Report := [1, 2, 9];
    assert Diffs(r)[1] == 7;
    assert Without(r, 2) == [1, 2];
    assert Diffs([1, 2]) == [1];
  }

  function CountSafe(reports: seq<Report>): (n: nat)
    ensures n <= |reports|
  {
    if reports == [] then 0
    else CountSafe(reports[..|reports| - 1]) + if IsReportSafe(reports[|reports| - 1]) then 1 else 0
  }

  function CountTolerable(reports: seq<Report>): (n: nat)
    ensures n <= |reports|
  {
    if reports == [] then 0
    else CountTolerable(reports[..|reports| - 1]) + if Tolerable(reports[|reports| - 1]) then 1 else 0
  }

  /** Part 1: the safe reports counted. */
  function Part1(reports: seq<Report>): nat
  {
    CountSafe(reports)
  }

  /** Part 2: the filter applied to each report, the survivors counted. */
  method Part2(reports: seq<Report>) returns (count: nat)
    ensures count == CountTolerable(reports)
  {
    count := 0;
    for k := 0 to |reports|
      invariant count == CountTolerable(reports[..k])
    {
      var ok := IsTolerable(reports[k]);
      assert reports[..k + 1][..k] == reports[..k];
      if ok {
        count := count + 1;
      }
    }
    assert reports[..|reports|] == reports;
  }

  /** The dampener only adds reports: part 2 counts at least as many as
    * part 1. */
  lemma {:induction false} DampenerCountsMore(reports: seq<Report>)
    ensures Part1(reports) <= CountTolerable(reports)
  {
    if reports != [] {
      DampenerCountsMore(reports[..|reports| - 1]);
    }
  }
}
