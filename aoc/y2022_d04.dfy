/** 2022 day 4: pairs of elves each cleaning an inclusive range of
    sections, written "a-b,c-d". */
module Day2022_04 {
  import opened Common

  /** The two ends of a range as `parseRange` leaves them: a number, or
      None for NaN (a side `parseInt` cannot read) and for `undefined` (a
      missing side). Every comparison with either is false. */
  datatype Range = Range(lo: Option<int>, hi: Option<int>)

  /** `a <= b` on JavaScript numbers that may be NaN or `undefined`. */
  predicate AtMost(a: Option<int>, b: Option<int>)
  {
    a.Some? && b.Some? && a.value <= b.value
  }

  predicate WellFormed(x: Range)
  {
    AtMost(x.lo, x.hi)
  }

  /** `parseRange`: split at '-' and `parseInt` every piece; the first two
      pieces are the ends, any further ones are ignored, and a missing
      second piece is `undefined`. It never refuses a string. */
  function ParseRange(raw: string): (r: Range)
    ensures r.lo == ParseInt(Split(raw, "-")[0])
    ensures |Split(raw, "-")| >= 2 ==> r.hi == ParseInt(Split(raw, "-")[1])
    ensures |Split(raw, "-")| < 2 ==> r.hi.None?
  {
    var parts := Split(raw, "-");
    Range(ParseInt(parts[0]), if |parts| >= 2 then ParseInt(parts[1]) else None)
  }

  /** Writing a range of naturals as "lo-hi" and parsing it gives it back. */
  lemma ParseRangeShow(lo: nat, hi: nat)
    ensures ParseRange(ShowNat(lo) + "-" + ShowNat(hi)) == Range(Some(lo), Some(hi))
  {
    var raw := ShowNat(lo) + "-" + ShowNat(hi);
    SplitNoSeparator(ShowNat(hi), "");
    assert "" + ShowNat(hi) == ShowNat(hi);
    SplitDigitsThenDash(ShowNat(lo), ShowNat(hi), "");
    assert "" + ShowNat(lo) == ShowNat(lo);
    assert Split(raw, "-") == [ShowNat(lo), ShowNat(hi)];
    ParseShow(lo);
    ParseShow(hi);
  }

  /** A third number is read and dropped: "1-2-3" is the range 1-2. */
  lemma ParseRangeExtraPiece()
    ensures ParseRange("1-2-3") == Range(Some(1), Some(2))
  {
    SplitNoSeparator("3", "");
    assert "" + "3" == "3";
    SplitDigitsThenDash("2", "3", "");
    assert "2" + "-" + "3" == "2-3" && "" + "2" == "2";
    assert SplitAfter("2-3", "-", "") == ["2", "3"];
    SplitDigitsThenDash("1", "2-3", "");
    assert "1" + "-" + "2-3" == "1-2-3" && "" + "1" == "1";
    assert Split("1-2-3", "-") == ["1", "2", "3"];
    ParseShow(1);
    ParseShow(2);
  }

  /** A leading '-' is a separator, not a sign: "-3-5" starts with an empty
      piece, so its low end is NaN. */
  lemma ParseRangeLeadingDash()
    ensures ParseRange("-3-5") == Range(None, Some(3))
  {
    SplitNoSeparator("5", "");
    assert "" + "5" == "5";
    SplitDigitsThenDash("3", "5", "");
    assert "3" + "-" + "5" == "3-5" && "" + "3" == "3";
    assert SplitAfter("3-5", "-", "") == ["3", "5"];
    assert "-3-5"[..1] == "-" && "-3-5"[1..] == "3-5";
    assert Split("-3-5", "-") == ["", "3", "5"];
    assert TrimStart("") == "";
    ParseShow(3);
  }

  lemma {:induction false} SplitNoSeparator(s: string, piece: string)
    requires forall i :: 0 <= i < |s| ==> IsDigit(s[i])
    ensures SplitAfter(s, "-", piece) == [piece + s]
    decreases |s|
  {
    if |s| >= 1 {
      assert s[..1] != "-" by { assert IsDigit(s[0]); }
      SplitNoSeparator(s[1..], piece + [s[0]]);
      assert piece + [s[0]] + s[1..] == piece + s;
    }
  }

  lemma {:induction false} SplitDigitsThenDash(d: string, rest: string, piece: string)
    requires forall i :: 0 <= i < |d| ==> IsDigit(d[i])
    ensures SplitAfter(d + "-" + rest, "-", piece) == [piece + d] + SplitAfter(rest, "-", "")
    decreases |d|
  {
    var s := d + "-" + rest;
    if d == [] {
      assert s[..1] == "-";
      assert s[1..] == rest;
      assert piece + d == piece;
    } else {
      assert s[..1] != "-" by { assert s[0] == d[0] && IsDigit(d[0]); }
      SplitDigitsThenDash(d[1..], rest, piece + [d[0]]);
      assert s[1..] == d[1..] + "-" + rest;
      assert piece + [d[0]] + d[1..] == piece + d;
    }
  }

  /** Section `v` lies in `r`. */
  predicate Covers(r: Range, v: int)
  {
    AtMost(r.lo, Some(v)) && AtMost(Some(v), r.hi)
  }

  /** Both ends of `r` are numbers. */
  predicate Numeric(r: Range)
  {
    r.lo.Some? && r.hi.Some?
  }

  /** `x` contains `y`. */
  predicate RangeIncludes(x: Range, y: Range)
  {
    AtMost(x.lo, y.lo) && AtMost(y.hi, x.hi)
  }

  /** `x` and `y` share a section. */
  predicate RangeIncludesPartially(x: Range, y: Range)
  {
    AtMost(x.lo, y.hi) && AtMost(y.lo, x.hi)
  }

  /** Containment is a partial order on ranges with numeric ends (NaN is not
      even contained in itself) and is exactly set inclusion of the sections
      of a well-formed range. */
  lemma IncludesIsOrder(x: Range, y: Range, z: Range)
    ensures RangeIncludes(x, x) <==> Numeric(x)
    ensures RangeIncludes(x, y) && RangeIncludes(y, z) ==> RangeIncludes(x, z)
    ensures RangeIncludes(x, y) && RangeIncludes(y, x) ==> x == y
    ensures WellFormed(y) ==> (RangeIncludes(x, y) <==> forall v :: Covers(y, v) ==> Covers(x, v))
  {
    if WellFormed(y) && forall v :: Covers(y, v) ==> Covers(x, v) {
      assert Covers(y, y.lo.value) && Covers(y, y.hi.value);
    }
  }

  /** Overlap is symmetric, and for well-formed ranges it means a common
      section. */
  lemma PartiallyIsOverlap(x: Range, y: Range)
    ensures RangeIncludesPartially(x, y) <==> RangeIncludesPartially(y, x)
    ensures WellFormed(x) && WellFormed(y) ==>
      (RangeIncludesPartially(x, y) <==> exists v :: Covers(x, v) && Covers(y, v))
  {
    if WellFormed(x) && WellFormed(y) && RangeIncludesPartially(x, y) {
      var v := if x.lo.value <= y.lo.value then y.lo.value else x.lo.value;
      assert Covers(x, v) && Covers(y, v);
    }
  }

  /** A range with a NaN or missing end takes part in no containment and no
      overlap, whichever side of the pair it is on. */
  lemma NaNCountsNowhere(x: Range, y: Range)
    requires !Numeric(x)
    ensures !FullyContained((x, y)) && !FullyContained((y, x))
    ensures !Overlapping((x, y)) && !Overlapping((y, x))
  {
  }

  predicate FullyContained(pair: (Range, Range))
  {
    RangeIncludes(pair.0, pair.1) || RangeIncludes(pair.1, pair.0)
  }

  predicate Overlapping(pair: (Range, Range))
  {
    RangeIncludesPartially(pair.0, pair.1) || RangeIncludesPartially(pair.1, pair.0)
  }

  /** `filter(...).length`. */
  function CountContained(pairs: seq<(Range, Range)>): (n: nat)
    ensures n <= |pairs|
  {
    if pairs == [] then 0
    else CountContained(pairs[..|pairs| - 1]) + if FullyContained(pairs[|pairs| - 1]) then 1 else 0
  }

  function CountOverlapping(pairs: seq<(Range, Range)>): (n: nat)
    ensures n <= |pairs|
  {
    if pairs == [] then 0
    else CountOverlapping(pairs[..|pairs| - 1]) + if Overlapping(pairs[|pairs| - 1]) then 1 else 0
  }

  /** With well-formed ranges, containment implies overlap, so the first
      answer never exceeds the second. */
  lemma {:induction false} Part1AtMostPart2(pairs: seq<(Range, Range)>)
    requires forall i :: 0 <= i < |pairs| ==> WellFormed(pairs[i].0) && WellFormed(pairs[i].1)
    ensures CountContained(pairs) <= CountOverlapping(pairs)
  {
    if pairs != [] {
      Part1AtMostPart2(pairs[..|pairs| - 1]);
    }
  }
}
