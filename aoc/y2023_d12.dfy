/** 2023 day 12: rows of springs, '#' broken, '.' working and '?' unknown,
    each with the sizes of its groups of broken springs. Part 1 counts, per
    row, the ways to choose which unknown springs are broken so that the
    broken springs form exactly those groups, in order. */
module Day2023_12 {
  import opened Common

  datatype Row = Row(indicators: string, groups: seq<int>)

  // ---------------------------------------------------------------------------
  // areGroupsSatisfied
  // ---------------------------------------------------------------------------

  /** `broken[k]`: the index, or undefined. */
  function At(broken: seq<int>, k: int): Option<int>
  {
    if 0 <= k < |broken| then Some(broken[k]) else None
  }

  /** `broken[base + i] === broken[base] + i`: false when either is
    * undefined, since undefined + i is NaN. */
  predicate Continues(broken: seq<int>, base: int, i: int)
  {
    At(broken, base + i).Some? && At(broken, base).Some? && At(broken, base + i).value == At(broken, base).value + i
  }

  /** The inner loop: the `group - 1` entries after `idx` continue its run. */
  predicate RunAtLeast(broken: seq<int>, idx: int, group: int)
  {
    forall i :: 1 <= i < group ==> Continues(broken, idx, i)
  }

  /** One pass of the outer loop: a run of `group` from `idx` that does not
    * go on. */
  predicate GroupAt(broken: seq<int>, idx: int, group: int)
  {
    RunAtLeast(broken, idx, group) && !Continues(broken, idx, group)
  }

  /** `areGroupsSatisfied` with the cursor at `idx`: each group in turn is
    * a run that does not go on, and all entries are used at the end. */
  function Check(broken: seq<int>, groups: seq<int>, idx: int): bool
  {
    if groups == [] then idx == |broken|
    else
      var group := groups[0];
      GroupAt(broken, idx, group) && Check(broken, groups[1..], idx + group)
  }

  /** The loops of `areGroupsSatisfied`. */
  method AreGroupsSatisfied(broken: seq<int>, groups: seq<int>) returns (ok: bool)
    ensures ok == Check(broken, groups, 0)
  {
    var brokenIdx := 0;
    for g := 0 to |groups|
      invariant Check(broken, groups[g..], brokenIdx) == Check(broken, groups, 0)
    {
      var group := groups[g];
      assert groups[g..][0] == group && groups[g..][1..] == groups[g + 1..];
      for i := 1 to if group < 1 then 1 else group
        invariant forall j :: 1 <= j < i ==> Continues(broken, brokenIdx, j)
      {
        if !Continues(broken, brokenIdx, i) {
          return false;
        }
      }
      if Continues(broken, brokenIdx, group) {
        return false;
      }
      brokenIdx := brokenIdx + group;
    }
    return brokenIdx == |broken|;
  }

  // ---------------------------------------------------------------------------
  // Runs
  // ---------------------------------------------------------------------------

  /** The length of the run of consecutive integers `s` starts with. */
  function FirstRun(s: seq<int>): (r: nat)
    requires |s| > 0
    ensures 1 <= r <= |s|
  {
    if |s| >= 2 && s[1] == s[0] + 1 then 1 + FirstRun(s[1..]) else 1
  }

  /** The lengths of the maximal runs of consecutive integers of `s`. */
  function RunLengths(s: seq<int>): seq<int>
    decreases |s|
  {
    if |s| == 0 then [] else [FirstRun(s)] + RunLengths(s[FirstRun(s)..])
  }

  /** A run is at least `k` long exactly when the next `k - 1` entries go on
    * from the first one by one. */
  lemma {:induction false} FirstRunAtLeast(s: seq<int>, k: int)
    requires |s| > 0 && k >= 1
    ensures FirstRun(s) >= k <==> k <= |s| && forall i :: 1 <= i < k ==> s[i] == s[0] + i
  {
    if k > 1 && |s| >= 2 && s[1] == s[0] + 1 {
      FirstRunAtLeast(s[1..], k - 1);
      if FirstRun(s) >= k {
        forall i | 1 <= i < k
          ensures s[i] == s[0] + i
        {
          if i > 1 {
            assert s[1..][i - 1] == s[0] + 1 + (i - 1);
          }
        }
      }
      if k <= |s| && forall i :: 1 <= i < k ==> s[i] == s[0] + i {
        forall i | 1 <= i < k - 1
          ensures s[1..][i] == s[1..][0] + i
        {
          assert s[i + 1] == s[0] + i + 1;
        }
      }
    } else if k > 1 && |s| >= 2 {
      assert !(k <= |s| && forall i :: 1 <= i < k ==> s[i] == s[0] + i) by {
        assert s[1] != s[0] + 1;
      }
    }
  }

  /** The runs use every entry. */
  lemma {:induction false} RunLengthsCover(s: seq<int>)
    ensures Sum(RunLengths(s)) == |s|
    ensures forall i :: 0 <= i < |RunLengths(s)| ==> RunLengths(s)[i] >= 1
    decreases |s|
  {
    if |s| > 0 {
      var r := FirstRun(s);
      RunLengthsCover(s[r..]);
      SumCons(r, RunLengths(s[r..]));
    }
  }

  lemma SumCons(x: int, s: seq<int>)
    ensures Sum([x] + s) == x + Sum(s)
  {
    SumAppend([x], s);
    assert Sum([x]) == Sum([]) + x;
  }

  /** Reading from `idx` is reading the slice that starts there. */
  lemma ContinuesInSlice(broken: seq<int>, idx: int, i: int)
    requires 0 <= idx < |broken| && i >= 0
    ensures Continues(broken, idx, i) <==> i < |broken[idx..]| && broken[idx..][i] == broken[idx..][0] + i
  {
  }

  lemma RunAtLeastInSlice(broken: seq<int>, idx: int, group: int)
    requires 0 <= idx < |broken| && group >= 1
    ensures RunAtLeast(broken, idx, group) <==>
      group <= |broken[idx..]| && forall i :: 1 <= i < group ==> broken[idx..][i] == broken[idx..][0] + i
  {
    var s := broken[idx..];
    if RunAtLeast(broken, idx, group) {
      if group > 1 {
        assert Continues(broken, idx, group - 1);
      }
      forall i | 1 <= i < group
        ensures s[i] == s[0] + i
      {
        assert Continues(broken, idx, i);
        ContinuesInSlice(broken, idx, i);
      }
    }
    if group <= |s| && forall i :: 1 <= i < group ==> s[i] == s[0] + i {
      forall i | 1 <= i < group
        ensures Continues(broken, idx, i)
      {
        ContinuesInSlice(broken, idx, i);
      }
    }
  }

  /** Past the end of the entries no group of at least 1 can be met. */
  lemma {:induction false} BeyondFails(broken: seq<int>, groups: seq<int>, idx: int)
    requires idx > |broken| && forall i :: 0 <= i < |groups| ==> groups[i] >= 1
    ensures !Check(broken, groups, idx)
  {
    if groups != [] {
      BeyondFails(broken, groups[1..], idx + groups[0]);
    }
  }

  /** The check from `idx` holds exactly when the runs of the entries from
    * `idx` on have the group sizes, in order. */
  lemma {:induction false} CheckIsRuns(broken: seq<int>, groups: seq<int>, idx: int)
    requires 0 <= idx <= |broken| && forall i :: 0 <= i < |groups| ==> groups[i] >= 1
    ensures Check(broken, groups, idx) <==> RunLengths(broken[idx..]) == groups
  {
    var s := broken[idx..];
    if groups == [] {
    } else if s == [] {
      var group := groups[0];
      if group == 1 {
        BeyondFails(broken, groups[1..], idx + 1);
      } else {
        assert !RunAtLeast(broken, idx, group) by {
          assert !Continues(broken, idx, 1);
        }
      }
    } else {
      var group := groups[0];
      var r := FirstRun(s);
      GroupIsFirstRun(broken, idx, group);
      assert RunLengths(s) == [r] + RunLengths(s[r..]);
      if r == group {
        assert broken[idx + group..] == s[r..];
        CheckIsRuns(broken, groups[1..], idx + group);
        assert Check(broken, groups, idx) == Check(broken, groups[1..], idx + group);
        assert groups == [group] + groups[1..];
      } else {
        assert !Check(broken, groups, idx);
      }
    }
  }

  /** One group is met at `idx` exactly when it is the length of the run
    * that starts there. */
  lemma GroupIsFirstRun(broken: seq<int>, idx: int, group: int)
    requires 0 <= idx < |broken| && group >= 1
    ensures GroupAt(broken, idx, group) <==> FirstRun(broken[idx..]) == group
  {
    var s := broken[idx..];
    FirstRunAtLeast(s, group);
    FirstRunAtLeast(s, group + 1);
    RunAtLeastInSlice(broken, idx, group);
    ContinuesInSlice(broken, idx, group);
  }

  /** `areGroupsSatisfied` holds exactly when the maximal runs of broken
    * indices have the group sizes, in order. */
  lemma GroupsSatisfiedIsRuns(broken: seq<int>, groups: seq<int>)
    requires forall i :: 0 <= i < |groups| ==> groups[i] >= 1
    ensures Check(broken, groups, 0) <==> RunLengths(broken) == groups
  {
    CheckIsRuns(broken, groups, 0);
    assert broken[0..] == broken;
  }

  /** A run that goes on past its group is rejected. */
  lemma RunTooLongRejected(broken: seq<int>, groups: seq<int>)
    requires groups != [] && groups[0] >= 1 && |broken| > groups[0]
    requires forall i :: 1 <= i <= groups[0] ==> broken[i] == broken[0] + i
    ensures !Check(broken, groups, 0)
  {
    assert Continues(broken, 0, groups[0]);
  }

  // ---------------------------------------------------------------------------
  // Candidates
  // ---------------------------------------------------------------------------

  /** The positions in `s` of the character `c`, in order. */
  function Positions(s: string, c: char): seq<int>
  {
    if |s| == 0 then []
    else if s[|s| - 1] == c then Positions(s[..|s| - 1], c) + [|s| - 1]
    else Positions(s[..|s| - 1], c)
  }

  /** The positions are exactly those holding `c`, ascending. */
  lemma {:induction false} PositionsMeaning(s: string, c: char)
    ensures forall i :: 0 <= i < |Positions(s, c)| ==> 0 <= Positions(s, c)[i] < |s| && s[Positions(s, c)[i]] == c
    ensures forall x :: 0 <= x < |s| && s[x] == c ==> x in Positions(s, c)
    ensures forall i, j :: 0 <= i < j < |Positions(s, c)| ==> Positions(s, c)[i] < Positions(s, c)[j]
  {
    if |s| > 0 {
      var init := s[..|s| - 1];
      PositionsMeaning(init, c);
      var r := Positions(s, c);
      var before := Positions(init, c);
      if s[|s| - 1] == c {
        assert r == before + [|s| - 1];
      } else {
        assert r == before;
      }
      forall i | 0 <= i < |r|
        ensures 0 <= r[i] < |s| && s[r[i]] == c
      {
        if i < |before| {
          assert r[i] == before[i] && init[before[i]] == s[before[i]];
        }
      }
      assert forall x :: 0 <= x < |init| ==> init[x] == s[x];
    }
  }

  /** The loop of `part1` that sorts the indices into known broken ones and
    * unknown ones. */
  method Classify(indicators: string) returns (knownBroken: seq<int>, unknown: seq<int>)
    ensures knownBroken == Positions(indicators, '#') && unknown == Positions(indicators, '?')
  {
    knownBroken := [];
    unknown := [];
    for idx := 0 to |indicators|
      invariant knownBroken == Positions(indicators[..idx], '#')
      invariant unknown == Positions(indicators[..idx], '?')
    {
      assert indicators[..idx + 1][..idx] == indicators[..idx];
      if indicators[idx] == '#' {
        knownBroken := knownBroken + [idx];
      } else if indicators[idx] == '?' {
        unknown := unknown + [idx];
      }
    }
    assert indicators[..|indicators|] == indicators;
  }

  /** The `k`-element subsequences of `u`: the candidates `combinations`
    * yields, in some order. */
  function Choices(u: seq<int>, k: int): seq<seq<int>>
    decreases |u|
  {
    if k == 0 then [[]]
    else if k < 0 || |u| == 0 then []
    else Prepend(u[0], Choices(u[1..], k - 1)) + Choices(u[1..], k)
  }

  function Prepend(x: int, cs: seq<seq<int>>): (r: seq<seq<int>>)
    ensures |r| == |cs| && forall i :: 0 <= i < |cs| ==> r[i] == [x] + cs[i]
  {
    seq(|cs|, i requires 0 <= i < |cs| => [x] + cs[i])
  }

  function Binomial(n: nat, k: int): nat
  {
    if k == 0 then 1 else if k < 0 || n == 0 then 0 else Binomial(n - 1, k - 1) + Binomial(n - 1, k)
  }

  /** There are `n choose k` candidates. */
  lemma {:induction false} ChoicesCount(u: seq<int>, k: int)
    ensures |Choices(u, k)| == Binomial(|u|, k)
    decreases |u|
  {
    if k != 0 && k >= 0 && |u| > 0 {
      ChoicesCount(u[1..], k - 1);
      ChoicesCount(u[1..], k);
    }
  }

  /** Each candidate has `k` entries, all taken from `u`. */
  lemma {:induction false} ChoicesMembers(u: seq<int>, k: int)
    ensures forall c :: c in Choices(u, k) ==> |c| == k && forall x :: x in c ==> x in u
    decreases |u|
  {
    if k != 0 && k >= 0 && |u| > 0 {
      ChoicesMembers(u[1..], k - 1);
      ChoicesMembers(u[1..], k);
      var with := Prepend(u[0], Choices(u[1..], k - 1));
      var without := Choices(u[1..], k);
      forall c | c in Choices(u, k)
        ensures |c| == k && forall x :: x in c ==> x in u
      {
        if c in with {
          var j :| 0 <= j < |with| && with[j] == c;
          assert c == [u[0]] + Choices(u[1..], k - 1)[j];
          assert Choices(u[1..], k - 1)[j] in Choices(u[1..], k - 1);
        } else {
          assert c in without;
        }
      }
    }
  }

  /** The candidate's broken springs: the known ones and the chosen ones,
    * sorted. */
  function Guess(knownBroken: seq<int>, chosen: seq<int>): seq<int>
  {
    Sort(knownBroken + chosen)
  }

  /** The number of candidates that satisfy the groups: the filter's length. */
  function CountValid(knownBroken: seq<int>, candidates: seq<seq<int>>, groups: seq<int>): (n: nat)
    ensures n <= |candidates|
  {
    if |candidates| == 0 then 0
    else
      CountValid(knownBroken, candidates[..|candidates| - 1], groups)
        + (if Check(Guess(knownBroken, candidates[|candidates| - 1]), groups, 0) then 1 else 0)
  }

  /** The arrangements of one row: 1 when no broken spring is missing,
    * otherwise the candidates that satisfy the groups. */
  function Arrangements(row: Row): nat
  {
    var knownBroken := Positions(row.indicators, '#');
    var unknown := Positions(row.indicators, '?');
    var missing := Sum(row.groups) - |knownBroken|;
    if missing > 0 then CountValid(knownBroken, Choices(unknown, missing), row.groups) else 1
  }

  /** The callback of `part1` for one row. */
  method RowArrangements(row: Row) returns (count: nat)
    ensures count == Arrangements(row)
  {
    var knownBroken, unknown := Classify(row.indicators);
    var totalBroken := Sum(row.groups);
    var missing := totalBroken - |knownBroken|;
    if missing > 0 {
      count := CountValid(knownBroken, Choices(unknown, missing), row.groups);
    } else {
      count := 1;
    }
  }

  /** No more arrangements than ways to choose the missing broken springs
    * among the unknown ones. */
  lemma ArrangementsBound(row: Row)
    ensures var missing := Sum(row.groups) - |Positions(row.indicators, '#')|;
      missing > 0 ==> Arrangements(row) <= Binomial(|Positions(row.indicators, '?')|, missing)
  {
    var missing := Sum(row.groups) - |Positions(row.indicators, '#')|;
    ChoicesCount(Positions(row.indicators, '?'), missing);
  }

  /** With no broken spring missing a row counts exactly 1. */
  lemma NothingMissingIsOne(row: Row)
    requires Sum(row.groups) <= |Positions(row.indicators, '#')|
    ensures Arrangements(row) == 1
  {
  }

  /** Every counted candidate is a true arrangement: its broken springs
    * form runs of exactly the group sizes (for groups of at least 1). */
  lemma {:induction false} CountedAreArrangements(knownBroken: seq<int>, candidates: seq<seq<int>>, groups: seq<int>, i: nat)
    requires i < |candidates| && forall g :: 0 <= g < |groups| ==> groups[g] >= 1
    requires Check(Guess(knownBroken, candidates[i]), groups, 0)
    ensures RunLengths(Guess(knownBroken, candidates[i])) == groups
  {
    GroupsSatisfiedIsRuns(Guess(knownBroken, candidates[i]), groups);
  }

  /** Part 1: the arrangements of all rows, summed. */
  function Part1(rows: seq<Row>): int
  {
    Sum(seq(|rows|, i requires 0 <= i < |rows| => Arrangements(rows[i]) as int))
  }

  lemma Part1NonNegative(rows: seq<Row>)
    ensures Part1(rows) >= 0
  {
    SumNonNegative(seq(|rows|, i requires 0 <= i < |rows| => Arrangements(rows[i]) as int));
  }
}
