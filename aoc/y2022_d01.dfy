/** 2022 day 1: elves carry snacks; the input lists each elf's calories,
    one number per line, with a blank line between elves. */
module Day2022_01 {
  import opened Common

  /** The lines of each elf: the input cut at blank lines ("\n\n"), each
      chunk cut at line ends with the empty lines dropped. */
  function ElfLines(data: string): (r: seq<seq<string>>)
    ensures |r| == |Split(data, "\n\n")|
    ensures forall i, j :: 0 <= i < |r| && 0 <= j < |r[i]| ==>
      r[i][j] != [] && r[i][j] in Split(Split(data, "\n\n")[i], "\n")
  {
    var chunks := Split(data, "\n\n");
    seq(|chunks|, i requires 0 <= i < |chunks| => NonEmpty(Split(chunks[i], "\n")))
  }

  /** The chunks of `ElfLines` put back together are the whole input. */
  lemma ElfChunksCoverInput(data: string)
    ensures Join(Split(data, "\n\n"), "\n\n") == data
  {
    SplitJoin(data, "\n\n");
  }

  /** Each elf's total calories. */
  function Totals(elves: seq<seq<int>>): (r: seq<int>)
    ensures |r| == |elves|
    ensures forall i :: 0 <= i < |r| ==> r[i] == Sum(elves[i])
  {
    seq(|elves|, i requires 0 <= i < |elves| => Sum(elves[i]))
  }

  lemma SortedLastIsMax(s: seq<int>)
    requires s != []
    ensures IsMax(Sort(s)[|s| - 1], s)
  {
    var r := Sort(s);
    assert r[|s| - 1] in multiset(s) by {
      assert r[|s| - 1] in multiset(r);
    }
    forall i | 0 <= i < |s| ensures s[i] <= r[|s| - 1] {
      assert s[i] in multiset(r);
      var j :| 0 <= j < |r| && r[j] == s[i];
    }
  }

  /** First answer: the last of the sorted totals, or nothing when there
      are no elves (`last` of an empty array). */
  function MostCalories(elves: seq<seq<int>>): (r: Option<int>)
    ensures r.None? <==> elves == []
    ensures r.Some? ==> IsMax(r.value, Totals(elves))
  {
    var sorted := Sort(Totals(elves));
    if elves == [] then None
    else
      SortedLastIsMax(Totals(elves));
      Some(sorted[|elves| - 1])
  }

  /** The three largest totals (all of them when there are fewer than three):
      `slice(-3)` of the sorted totals. */
  function LargestThree(totals: seq<int>): (top: seq<int>)
    ensures |top| == if |totals| < 3 then |totals| else 3
    ensures multiset(top) <= multiset(totals)
    ensures forall v, w :: v in multiset(totals) - multiset(top) && w in top ==> v <= w
  {
    var sorted := Sort(totals);
    var k := if |sorted| < 3 then 0 else |sorted| - 3;
    LargestThreeOfSorted(sorted, k);
    sorted[k..]
  }

  lemma LargestThreeOfSorted(sorted: seq<int>, k: nat)
    requires SortedAsc(sorted) && k <= |sorted|
    ensures multiset(sorted[k..]) <= multiset(sorted)
    ensures forall v, w :: v in multiset(sorted) - multiset(sorted[k..]) && w in sorted[k..] ==> v <= w
  {
    assert sorted == sorted[..k] + sorted[k..];
    assert multiset(sorted) == multiset(sorted[..k]) + multiset(sorted[k..]);
    forall v, w | v in multiset(sorted) - multiset(sorted[k..]) && w in sorted[k..] ensures v <= w {
      assert v in multiset(sorted[..k]);
      var i :| 0 <= i < k && sorted[i] == v;
      var j :| k <= j < |sorted| && sorted[j] == w by {
        var j' :| 0 <= j' < |sorted[k..]| && sorted[k..][j'] == w;
        assert sorted[k + j'] == w;
      }
    }
  }

  /** Second answer: the calories of the three best-provisioned elves. */
  function TopThreeCalories(elves: seq<seq<int>>): int
  {
    Sum(LargestThree(Totals(elves)))
  }
}
