/** 2023 day 13: patterns of ash and rock. A horizontal reflection line
    lies after row `r` when the rows mirrored around it, as far as the
    shorter side reaches, are equal; the vertical one is found the same way
    on the pattern turned a quarter clockwise. */
module Day2023_13 {
  import opened Common

  type Pattern = seq<string>

  function MinInt(a: int, b: int): int
  {
    if a <= b then a else b
  }

  /** The rows to compare around the line after row `r`. */
  function ToCheck(p: Pattern, r: int): int
  {
    MinInt(r + 1, |p| - r - 1)
  }

  /** Row `m` above the line after row `r` equals row `m` below it. */
  predicate RowsMatch(p: Pattern, r: int, m: int)
    requires 0 <= m <= r && r + m + 1 < |p|
  {
    p[r - m] == p[r + m + 1]
  }

  /** The rows around the line after row `r` mirror each other. */
  predicate Mirrored(p: Pattern, r: int)
    requires 0 <= r < |p| - 1
  {
    forall m :: 0 <= m < ToCheck(p, r) ==> RowsMatch(p, r, m)
  }

  /** The search from row `r` on: the first line with a mirror, counted in
    * rows above it. */
  function Reflection(p: Pattern, r: nat): Option<int>
    decreases |p| - r
  {
    if r >= |p| - 1 then None
    else if Mirrored(p, r) then Some(r + 1)
    else Reflection(p, r + 1)
  }

  /** The search finds the least line with a mirror, or none when no line
    * has one. */
  lemma {:induction false} ReflectionMeaning(p: Pattern, r: nat)
    ensures Reflection(p, r).Some? ==> var h := Reflection(p, r).value;
      r + 1 <= h <= |p| - 1 && Mirrored(p, h - 1)
      && forall k :: r <= k < h - 1 ==> !Mirrored(p, k)
    ensures Reflection(p, r).None? ==> forall k :: r <= k < |p| - 1 ==> !Mirrored(p, k)
    decreases |p| - r
  {
    if r < |p| - 1 && !Mirrored(p, r) {
      ReflectionMeaning(p, r + 1);
    }
  }

  /** `horizontalReflection`: the labelled search. */
  method HorizontalReflection(p: Pattern) returns (h: Option<int>)
    ensures h == Reflection(p, 0)
  {
    var r := 0;
    while r < |p| - 1
      invariant 0 <= r && Reflection(p, r) == Reflection(p, 0)
      decreases |p| - r
    {
      var toCheck := MinInt(r + 1, |p| - r - 1);
      var mirrored := true;
      for m := 0 to toCheck
        invariant mirrored ==> forall j :: 0 <= j < m ==> RowsMatch(p, r, j)
        invariant !mirrored ==> !Mirrored(p, r)
      {
        if mirrored && p[r - m] != p[r + m + 1] {
          assert !RowsMatch(p, r, m);
          mirrored := false;
        }
      }
      if mirrored {
        return Some(r + 1);
      }
      r := r + 1;
    }
    return None;
  }

  /** `line.charAt(c)`: the character, or the empty string past the end. */
  function CharAt(line: string, c: int): string
  {
    if 0 <= c < |line| then [line[c]] else []
  }

  /** Column `c` read from the bottom row up. */
  function ColumnUp(p: Pattern, c: int): string
  {
    if |p| == 0 then [] else CharAt(p[|p| - 1], c) + ColumnUp(p[..|p| - 1], c)
  }

  /** All rows are `w` characters wide. */
  predicate Rectangular(p: Pattern, w: int)
  {
    forall k :: 0 <= k < |p| ==> |p[k]| == w
  }

  /** In a rectangular pattern column `c` read upwards has one character per
    * row, the bottom row's first. */
  lemma {:induction false} ColumnUpMeaning(p: Pattern, w: int, c: int)
    requires Rectangular(p, w) && 0 <= c < w
    ensures |ColumnUp(p, c)| == |p|
    ensures forall k :: 0 <= k < |p| ==> ColumnUp(p, c)[k] == p[|p| - 1 - k][c]
  {
    if |p| > 0 {
      var init := p[..|p| - 1];
      assert Rectangular(init, w);
      ColumnUpMeaning(init, w, c);
      forall k | 0 <= k < |p|
        ensures ColumnUp(p, c)[k] == p[|p| - 1 - k][c]
      {
        if k > 0 {
          assert ColumnUp(p, c)[k] == ColumnUp(init, c)[k - 1];
          assert init[|init| - 1 - (k - 1)] == p[|p| - 1 - k];
        }
      }
    }
  }

  /** The pattern turned a quarter clockwise: row `c` is column `c` read
    * upwards, one row per character of the first row. */
  function Rotated(p: Pattern): seq<string>
    requires |p| > 0
  {
    seq(|p[0]|, c requires 0 <= c < |p[0]| => ColumnUp(p, c))
  }

  /** The loop of `verticalReflection` that builds the rotated pattern. */
  method Rotate(p: Pattern) returns (rotated: seq<string>)
    requires |p| > 0
    ensures rotated == Rotated(p)
  {
    var reversedPattern := Reverse(p);
    rotated := [];
    for c := 0 to |p[0]|
      invariant rotated == Rotated(p)[..c]
    {
      var column := Joined(reversedPattern, c);
      ReversedColumn(p, c);
      rotated := rotated + [column];
    }
  }

  function Reverse(p: Pattern): (r: Pattern)
    ensures |r| == |p| && forall k :: 0 <= k < |p| ==> r[k] == p[|p| - 1 - k]
  {
    seq(|p|, k requires 0 <= k < |p| => p[|p| - 1 - k])
  }

  /** `lines.map((line) => line.charAt(c)).join("")`. */
  function Joined(lines: seq<string>, c: int): string
  {
    if |lines| == 0 then [] else CharAt(lines[0], c) + Joined(lines[1..], c)
  }

  /** Joining the reversed rows reads the column upwards. */
  lemma {:induction false} ReversedColumn(p: Pattern, c: int)
    ensures Joined(Reverse(p), c) == ColumnUp(p, c)
  {
    if |p| > 0 {
      var init := p[..|p| - 1];
      ReversedColumn(init, c);
      assert Reverse(p)[1..] == Reverse(init);
    }
  }

  /** `verticalReflection`: a failure on an empty pattern, which has no
    * first row to read. */
  function VerticalReflection(p: Pattern): Result<Option<int>>
  {
    if |p| == 0 then Failure("no first row") else Success(Reflection(Rotated(p), 0))
  }

  /** Column `m` left of the line after column `v` equals column `m` right
    * of it, in every row. */
  predicate ColumnsMatch(p: Pattern, v: int, m: int)
  {
    forall k :: 0 <= k < |p| ==> CharAt(p[k], v - m) == CharAt(p[k], v + m + 1)
  }

  /** A vertical line after column `v` of a rectangular pattern is found
    * exactly when every row mirrors around it. */
  lemma VerticalIsColumns(p: Pattern, w: int, v: int)
    requires |p| > 0 && Rectangular(p, w) && 0 <= v < w - 1
    ensures Mirrored(Rotated(p), v) <==> forall m :: 0 <= m < MinInt(v + 1, w - v - 1) ==> ColumnsMatch(p, v, m)
  {
    var rot := Rotated(p);
    assert |rot| == w;
    forall m | 0 <= m < MinInt(v + 1, w - v - 1)
      ensures RowsMatch(rot, v, m) <==> ColumnsMatch(p, v, m)
    {
      ColumnMirror(p, w, v, m);
    }
  }

  lemma ColumnMirror(p: Pattern, w: int, v: int, m: int)
    requires |p| > 0 && Rectangular(p, w) && 0 <= m <= v && v + m + 1 < w
    ensures |Rotated(p)| == w
    ensures RowsMatch(Rotated(p), v, m) <==> ColumnsMatch(p, v, m)
  {
    assert |p[0]| == w;
    var rot := Rotated(p);
    var left, right := rot[v - m], rot[v + m + 1];
    ColumnUpMeaning(p, w, v - m);
    ColumnUpMeaning(p, w, v + m + 1);
    if ColumnsMatch(p, v, m) {
      forall j | 0 <= j < |p|
        ensures left[j] == right[j]
      {
        var k := |p| - 1 - j;
        assert CharAt(p[k], v - m) == CharAt(p[k], v + m + 1);
      }
    }
    if left == right {
      forall k | 0 <= k < |p|
        ensures CharAt(p[k], v - m) == CharAt(p[k], v + m + 1)
      {
        assert left[|p| - 1 - k] == right[|p| - 1 - k];
      }
    }
  }

  /** The score of one pattern: 100 per row above a horizontal line, else
    * the columns left of a vertical one, else 0. */
  function Score(p: Pattern): Result<int>
  {
    match Reflection(p, 0)
    case Some(h) => Success(100 * h)
    case None =>
      match VerticalReflection(p)
      case Failure(e) => Failure(e)
      case Success(v) => Success(if v.Some? then v.value else 0)
  }

  /** A pattern scores a multiple of 100 exactly when it has a horizontal
    * line; a vertical line scores less than the width. */
  lemma ScoreMeaning(p: Pattern)
    ensures Reflection(p, 0).Some? ==> Score(p) == Success(100 * Reflection(p, 0).value) && Score(p).value >= 100
    ensures Reflection(p, 0).None? && |p| > 0 ==> Score(p).Success? && (Score(p).value == 0 || 1 <= Score(p).value < |p[0]|)
    ensures |p| == 0 ==> Score(p).Failure?
  {
    ReflectionMeaning(p, 0);
    if |p| > 0 {
      ReflectionMeaning(Rotated(p), 0);
    }
  }

  /** The mirror after row `r` of a pattern is the mirror after row
    * `|p| - 2 - r` of the pattern upside down. */
  lemma MirroredUpsideDown(p: Pattern, r: int)
    requires 0 <= r < |p| - 1
    ensures Mirrored(p, r) <==> Mirrored(Reverse(p), |p| - 2 - r)
  {
    var q := Reverse(p);
    var s := |p| - 2 - r;
    assert ToCheck(q, s) == ToCheck(p, r);
    forall m | 0 <= m < ToCheck(p, r)
      ensures RowsMatch(p, r, m) <==> RowsMatch(q, s, m)
    {
      assert q[s - m] == p[r + m + 1] && q[s + m + 1] == p[r - m];
    }
  }

  /** Part 1: the scores summed, or the first failure. */
  function Part1(patterns: seq<Pattern>): Result<int>
  {
    if |patterns| == 0 then Success(0)
    else
      match Part1(patterns[..|patterns| - 1])
      case Failure(e) => Failure(e)
      case Success(rest) =>
        match Score(patterns[|patterns| - 1])
        case Failure(e) => Failure(e)
        case Success(s) => Success(rest + s)
  }

  /** Part 1 fails exactly when some pattern is empty, and otherwise is at
    * least 100 per pattern with a horizontal line. */
  lemma {:induction false} Part1Meaning(patterns: seq<Pattern>)
    ensures Part1(patterns).Failure? <==> exists i :: 0 <= i < |patterns| && |patterns[i]| == 0
    ensures Part1(patterns).Success? ==> Part1(patterns).value >= 0
  {
    if |patterns| > 0 {
      var init := patterns[..|patterns| - 1];
      var last := patterns[|patterns| - 1];
      Part1Meaning(init);
      ScoreMeaning(last);
      if exists i :: 0 <= i < |init| && |init[i]| == 0 {
        var i :| 0 <= i < |init| && |init[i]| == 0;
        assert patterns[i] == init[i];
      }
      if exists i :: 0 <= i < |patterns| && |patterns[i]| == 0 {
        var i :| 0 <= i < |patterns| && |patterns[i]| == 0;
        if i < |init| {
          assert init[i] == patterns[i];
        }
      }
    }
  }
}
