/** 2024 day 1: two lists of location ids. Part 1 pairs the lists in
    ascending order and sums the distances; part 2 multiplies each id of
    the left list by the times it appears in the right one. */
module Day2024_01 {
  import opened Common

  type Pair = (int, int)

  function Lefts(pairs: seq<Pair>): (r: seq<int>)
    ensures |r| == |pairs| && forall i :: 0 <= i < |pairs| ==> r[i] == pairs[i].0
  {
    seq(|pairs|, i requires 0 <= i < |pairs| => pairs[i].0)
  }

  function Rights(pairs: seq<Pair>): (r: seq<int>)
    ensures |r| == |pairs| && forall i :: 0 <= i < |pairs| ==> r[i] == pairs[i].1
  {
    seq(|pairs|, i requires 0 <= i < |pairs| => pairs[i].1)
  }

  // ---------------------------------------------------------------------------
  // Part 1
  // ---------------------------------------------------------------------------

  /** The distance of each pair of entries at the same index. */
  function Distances(xs: seq<int>, ys: seq<int>): seq<int>
    requires |xs| == |ys|
  {
    seq(|xs|, i requires 0 <= i < |xs| => Abs(xs[i] - ys[i]))
  }

  /** Part 1: both lists sorted ascending, the distances summed. */
  function Part1(pairs: seq<Pair>): int
  {
    Sum(Distances(Sort(Lefts(pairs)), Sort(Rights(pairs))))
  }

  /** A sum of non-negative terms is zero exactly when every term is. */
  lemma {:induction false} SumZero(s: seq<int>)
    requires forall i :: 0 <= i < |s| ==> s[i] >= 0
    ensures Sum(s) >= 0
    ensures Sum(s) == 0 <==> forall i :: 0 <= i < |s| ==> s[i] == 0
  {
    if s != [] {
      var init := s[..|s| - 1];
      SumZero(init);
      if Sum(s) == 0 {
        forall i | 0 <= i < |s|
          ensures s[i] == 0
        {
          if i < |s| - 1 {
            assert init[i] == s[i];
          }
        }
      }
    }
  }

  /** Two ascending sequences with the same elements are equal. */
  lemma {:induction false} SortedUnique(s: seq<int>, t: seq<int>)
    requires SortedAsc(s) && SortedAsc(t) && multiset(s) == multiset(t)
    ensures s == t
  {
    if s == [] {
      assert |t| == |multiset(t)| == 0;
    } else {
      assert |t| == |multiset(t)| == |s|;
      assert s[0] in multiset(t) && t[0] in multiset(s);
      assert s[0] == t[0];
      assert s == [s[0]] + s[1..] && t == [t[0]] + t[1..];
      assert multiset(s) == multiset(s[1..]) + multiset{s[0]};
      assert multiset(t) == multiset(t[1..]) + multiset{s[0]};
      MultisetCancel(multiset(s[1..]), multiset(t[1..]), s[0]);
      SortedUnique(s[1..], t[1..]);
    }
  }

  /** The total distance is never negative, and is zero exactly when the
    * two lists hold the same ids the same number of times. */
  lemma Part1Meaning(pairs: seq<Pair>)
    ensures Part1(pairs) >= 0
    ensures Part1(pairs) == 0 <==> multiset(Lefts(pairs)) == multiset(Rights(pairs))
  {
    var sx, sy := Sort(Lefts(pairs)), Sort(Rights(pairs));
    DistancesZero(sx, sy);
    if multiset(Lefts(pairs)) == multiset(Rights(pairs)) {
      SortedUnique(sx, sy);
    }
  }

  /** The distances sum to zero exactly when the sequences are equal. */
  lemma DistancesZero(xs: seq<int>, ys: seq<int>)
    requires |xs| == |ys|
    ensures Sum(Distances(xs, ys)) >= 0
    ensures Sum(Distances(xs, ys)) == 0 <==> xs == ys
  {
    var ds := Distances(xs, ys);
    SumZero(ds);
    if Sum(ds) == 0 {
      forall i | 0 <= i < |xs|
        ensures xs[i] == ys[i]
      {
        assert ds[i] == 0;
      }
    }
    if xs == ys {
      forall i | 0 <= i < |xs|
        ensures ds[i] == 0
      {
      }
    }
  }

  /** Swapping the two lists does not change the total distance. */
  lemma Part1Symmetric(pairs: seq<Pair>)
    ensures Part1(pairs) == Part1(seq(|pairs|, i requires 0 <= i < |pairs| => (pairs[i].1, pairs[i].0)))
  {
    var swapped := seq(|pairs|, i requires 0 <= i < |pairs| => (pairs[i].1, pairs[i].0));
    assert Lefts(swapped) == Rights(pairs);
    assert Rights(swapped) == Lefts(pairs);
    DistancesSymmetric(Sort(Lefts(pairs)), Sort(Rights(pairs)));
  }

  lemma DistancesSymmetric(xs: seq<int>, ys: seq<int>)
    requires |xs| == |ys|
    ensures Distances(ys, xs) == Distances(xs, ys)
  {
    assert forall i :: 0 <= i < |xs| ==> Distances(ys, xs)[i] == Distances(xs, ys)[i];
  }

  // ---------------------------------------------------------------------------
  // Part 2
  // ---------------------------------------------------------------------------

  /** The loop filling `bCounts`: each id of the right list mapped to the
    * times it appears there. */
  method RightCounts(pairs: seq<Pair>) returns (bCounts: map<int, nat>)
    ensures forall b :: b in bCounts <==> b in Rights(pairs)
    ensures forall b :: b in bCounts ==> bCounts[b] == Count(Rights(pairs), b)
  {
    bCounts := map[];
    for k := 0 to |pairs|
      invariant forall b :: b in bCounts <==> b in Rights(pairs)[..k]
      invariant forall b :: b in bCounts ==> bCounts[b] == Count(Rights(pairs)[..k], b)
    {
      var b := pairs[k].1;
      var previous := if b in bCounts then bCounts[b] else 0;
      assert Rights(pairs)[..k + 1] == Rights(pairs)[..k] + [b];
      CountAbsent(Rights(pairs)[..k], b);
      bCounts := bCounts[b := previous + 1];
    }
    assert Rights(pairs)[..|pairs|] == Rights(pairs);
  }

  lemma {:induction false} CountAbsent(s: seq<int>, x: int)
    ensures x !in s <==> Count(s, x) == 0
  {
    if s != [] {
      CountAbsent(s[..|s| - 1], x);
      assert s == s[..|s| - 1] + [s[|s| - 1]];
    }
  }

  /** Each left id times the times it appears on the right. */
  function Similarities(xs: seq<int>, ys: seq<int>): seq<int>
  {
    seq(|xs|, i requires 0 <= i < |xs| => xs[i] * Count(ys, xs[i]))
  }

  function Similarity(xs: seq<int>, ys: seq<int>): int
  {
    Sum(Similarities(xs, ys))
  }

  /** Part 2: the similarity score, read from `bCounts`. */
  method Part2(pairs: seq<Pair>) returns (score: int)
    ensures score == Similarity(Lefts(pairs), Rights(pairs))
  {
    var bCounts := RightCounts(pairs);
    var similarities := seq(|pairs|, i requires 0 <= i < |pairs| =>
      pairs[i].0 * (if pairs[i].0 in bCounts then bCounts[pairs[i].0] else 0));
    forall i | 0 <= i < |pairs|
      ensures similarities[i] == Similarities(Lefts(pairs), Rights(pairs))[i]
    {
      CountAbsent(Rights(pairs), pairs[i].0);
    }
    assert similarities == Similarities(Lefts(pairs), Rights(pairs));
    score := Sum(similarities);
  }

  lemma SimilarityAppendLeft(xs: seq<int>, a: int, ys: seq<int>)
    ensures Similarity(xs + [a], ys) == Similarity(xs, ys) + a * Count(ys, a)
  {
    assert Similarities(xs + [a], ys)[..|xs|] == Similarities(xs, ys);
  }

  /** Appending `b` on the right adds `b` for each time it appears on the
    * left. */
  lemma {:induction false} SimilarityAppendRight(xs: seq<int>, ys: seq<int>, b: int)
    ensures Similarity(xs, ys + [b]) == Similarity(xs, ys) + b * Count(xs, b)
  {
    if xs != [] {
      var init, a := xs[..|xs| - 1], xs[|xs| - 1];
      assert xs == init + [a];
      SimilarityAppendRight(init, ys, b);
      SimilarityAppendLeft(init, a, ys + [b]);
      SimilarityAppendLeft(init, a, ys);
      assert (ys + [b])[..|ys|] == ys;
      assert xs[..|xs| - 1] == init;
      var e := if a == b then 1 else 0;
      assert Count(xs, b) == Count(init, b) + e;
      assert Count(ys + [b], a) == Count(ys, a) + e;
      SwapArithmetic(a, b, Count(ys, a), Count(init, b), e);
    } else {
      assert Similarities(xs, ys + [b]) == [];
    }
  }

  lemma SwapArithmetic(a: int, b: int, c1: int, c2: int, e: int)
    requires e == if a == b then 1 else 0
    ensures b * c2 + a * (c1 + e) == a * c1 + b * (c2 + e)
  {
    assert a * (c1 + e) == a * c1 + a * e;
    assert b * (c2 + e) == b * c2 + b * e;
  }

  /** The score counts each pair of equal ids once, so the two lists can be
    * swapped. */
  lemma {:induction false} SimilaritySymmetric(xs: seq<int>, ys: seq<int>)
    ensures Similarity(xs, ys) == Similarity(ys, xs)
  {
    if ys == [] {
      assert Similarities(ys, xs) == [];
      assert forall i :: 0 <= i < |xs| ==> Similarities(xs, ys)[i] == 0;
      SumZero(Similarities(xs, ys));
    } else {
      var init, b := ys[..|ys| - 1], ys[|ys| - 1];
      assert ys == init + [b];
      SimilaritySymmetric(xs, init);
      SimilarityAppendRight(xs, init, b);
      SimilarityAppendLeft(init, b, xs);
    }
  }
}
