/** 2024 day 5: page ordering rules `a|b` (a must come before b when both
    are printed) and updates, lists of pages. Part 1 scores the updates in
    a valid order; part 2 repairs the others and scores them. The score is
    the sum of the middle pages. */
module Day2024_05 {
  import opened Common

  type PageRule = (int, int)
  type Update = seq<int>

  /** `Array.prototype.indexOf`: the first index holding `page`, or -1. */
  function IndexOf(update: Update, page: int): (r: int)
    ensures r == -1 <==> page !in update
    ensures r != -1 ==> 0 <= r < |update| && update[r] == page && page !in update[..r]
  {
    if update == [] then -1
    else if update[0] == page then 0
    else
      var r := IndexOf(update[1..], page);
      assert update == [update[0]] + update[1..];
      if r == -1 then -1
      else
        assert update[..r + 1] == [update[0]] + update[1..][..r];
        r + 1
  }

  /** The rule's two pages are both present, `a` first seen after `b`. */
  predicate Violates(rule: PageRule, update: Update)
  {
    var aIdx := IndexOf(update, rule.0);
    var bIdx := IndexOf(update, rule.1);
    aIdx != -1 && bIdx != -1 && aIdx > bIdx
  }

  predicate ValidOrder(rules: seq<PageRule>, update: Update)
  {
    forall k :: 0 <= k < |rules| ==> !Violates(rules[k], update)
  }

  /** `isValidOrder`: the loop over the rules, stopping at the first one
    * broken. */
  method IsValidOrder(rules: seq<PageRule>, update: Update) returns (ok: bool)
    ensures ok == ValidOrder(rules, update)
  {
    for k := 0 to |rules|
      invariant forall j :: 0 <= j < k ==> !Violates(rules[j], update)
    {
      var (a, b) := rules[k];
      var aIdx := IndexOf(update, a);
      var bIdx := IndexOf(update, b);
      if aIdx != -1 && bIdx != -1 && aIdx > bIdx {
        return false;
      }
    }
    return true;
  }

  /** On an update without repeated pages an order is valid exactly when,
    * for every rule whose pages are both present, the first comes no
    * later than the second. */
  lemma ValidOrderMeaning(rules: seq<PageRule>, update: Update)
    requires forall i, j :: 0 <= i < j < |update| ==> update[i] != update[j]
    ensures ValidOrder(rules, update) <==>
      forall k, i, j :: (0 <= k < |rules| && 0 <= i < |update| && 0 <= j < |update|
        && update[i] == rules[k].0 && update[j] == rules[k].1) ==> i <= j
  {
    forall k, i | 0 <= k < |rules| && 0 <= i < |update| && update[i] == rules[k].0
      ensures IndexOf(update, rules[k].0) == i
    {
    }
    forall k, j | 0 <= k < |rules| && 0 <= j < |update| && update[j] == rules[k].1
      ensures IndexOf(update, rules[k].1) == j
    {
    }
  }

  // ---------------------------------------------------------------------------
  // correctOrder
  // ---------------------------------------------------------------------------

  /** The page at `from` taken out and put back at `to`, earlier. */
  function MoveBack(update: Update, from: nat, to: nat): Update
    requires to < from < |update|
  {
    update[..to] + [update[from]] + update[to..from] + update[from + 1..]
  }

  /** One rule applied by `correctOrder`: a broken rule's first page moved
    * to just before the second. */
  function Correct(rule: PageRule, update: Update): Update
  {
    if Violates(rule, update) then MoveBack(update, IndexOf(update, rule.0), IndexOf(update, rule.1)) else update
  }

  /** The rules applied in order. */
  function Corrected(rules: seq<PageRule>, update: Update): Update
  {
    if rules == [] then update else Correct(rules[|rules| - 1], Corrected(rules[..|rules| - 1], update))
  }

  /** `correctOrder`: the copy and its two splices for each broken rule. */
  method CorrectOrder(rules: seq<PageRule>, update: Update) returns (updatedOrder: Update)
    ensures updatedOrder == Corrected(rules, update)
  {
    updatedOrder := update;
    for k := 0 to |rules|
      invariant updatedOrder == Corrected(rules[..k], update)
    {
      assert rules[..k + 1][..k] == rules[..k];
      var (a, b) := rules[k];
      var aIdx := IndexOf(updatedOrder, a);
      var bIdx := IndexOf(updatedOrder, b);
      if aIdx != -1 && bIdx != -1 && aIdx > bIdx {
        ghost var before := updatedOrder;
        updatedOrder := updatedOrder[..aIdx] + updatedOrder[aIdx + 1..];
        updatedOrder := updatedOrder[..bIdx] + [a] + updatedOrder[bIdx..];
        assert updatedOrder == MoveBack(before, aIdx, bIdx) by {
          assert before[..aIdx] == before[..bIdx] + before[bIdx..aIdx];
        }
      }
    }
    assert rules[..|rules|] == rules;
  }

  /** Moving a page keeps the pages. */
  lemma MoveBackPermutes(update: Update, from: nat, to: nat)
    requires to < from < |update|
    ensures multiset(MoveBack(update, from, to)) == multiset(update)
  {
    assert update == update[..to] + update[to..from] + [update[from]] + update[from + 1..];
  }

  /** `correctOrder` returns the same pages, in a new order. */
  lemma {:induction false} CorrectedPermutes(rules: seq<PageRule>, update: Update)
    ensures multiset(Corrected(rules, update)) == multiset(update)
    ensures |Corrected(rules, update)| == |update|
  {
    if rules != [] {
      var u := Corrected(rules[..|rules| - 1], update);
      CorrectedPermutes(rules[..|rules| - 1], update);
      var rule := rules[|rules| - 1];
      if Violates(rule, u) {
        MoveBackPermutes(u, IndexOf(u, rule.0), IndexOf(u, rule.1));
      }
      assert |Corrected(rules, update)| == |multiset(Corrected(rules, update))|;
      assert |update| == |multiset(update)|;
    }
  }

  /** A valid update goes through `correctOrder` unchanged. */
  lemma {:induction false} ValidUnchanged(rules: seq<PageRule>, update: Update)
    requires ValidOrder(rules, update)
    ensures Corrected(rules, update) == update
  {
    if rules != [] {
      var init := rules[..|rules| - 1];
      assert ValidOrder(init, update) by {
        forall k | 0 <= k < |init|
          ensures !Violates(init[k], update)
        {
          assert init[k] == rules[k];
        }
      }
      ValidUnchanged(init, update);
      assert !Violates(rules[|rules| - 1], update);
    }
  }

  /** Applying a broken rule repairs it: its first page now comes first. */
  lemma CorrectRepairs(rule: PageRule, update: Update)
    requires Violates(rule, update)
    ensures !Violates(rule, Correct(rule, update))
  {
    var aIdx, bIdx := IndexOf(update, rule.0), IndexOf(update, rule.1);
    var moved := MoveBack(update, aIdx, bIdx);
    assert moved[bIdx] == rule.0 && moved[bIdx + 1] == rule.1;
    assert moved[..bIdx] == update[..bIdx];
    var na := IndexOf(moved, rule.0);
    var nb := IndexOf(moved, rule.1);
    assert na <= bIdx;
    assert nb == bIdx + 1;
  }

  // ---------------------------------------------------------------------------
  // Scores and the two parts
  // ---------------------------------------------------------------------------

  /** `update[(update.length - 1) / 2]`: the middle page of an update of odd
    * length; for an even length the index is fractional and the read gives
    * `undefined`. */
  function Middle(update: Update): Option<Num>
  {
    if |update| % 2 == 1 then Some(Finite(update[(|update| - 1) / 2])) else None
  }

  /** The middle page an update adds to the score: 0 when it has none. */
  function MiddleValue(update: Update): int
  {
    if |update| % 2 == 1 then update[(|update| - 1) / 2] else 0
  }

  /** `getScore`: lodash `sum` over the middle pages read. */
  function GetScore(updates: seq<Update>): Option<Num>
  {
    LodashSum(seq(|updates|, i requires 0 <= i < |updates| => Middle(updates[i])))
  }

  /** The defined middles sum to the middle pages of the odd-length updates. */
  lemma {:induction false} MiddlesSum(updates: seq<Update>)
    ensures SumNums(Defined(seq(|updates|, i requires 0 <= i < |updates| => Middle(updates[i]))))
      == Finite(Sum(seq(|updates|, i requires 0 <= i < |updates| => MiddleValue(updates[i]))))
  {
    if updates != [] {
      var init := updates[..|updates| - 1];
      MiddlesSum(init);
      var middles := seq(|updates|, i requires 0 <= i < |updates| => Middle(updates[i]));
      var values := seq(|updates|, i requires 0 <= i < |updates| => MiddleValue(updates[i]));
      assert middles[..|middles| - 1] == seq(|init|, i requires 0 <= i < |init| => Middle(init[i]));
      assert values[..|values| - 1] == seq(|init|, i requires 0 <= i < |init| => MiddleValue(init[i]));
    }
  }

  /** The score skips the updates of even length and sums the middle pages
    * of the others; it is `undefined` exactly when there are updates and
    * every one of them has even length, and 0 for no updates. */
  lemma GetScoreMeaning(updates: seq<Update>)
    ensures GetScore(updates).None? <==>
      updates != [] && forall i :: 0 <= i < |updates| ==> |updates[i]| % 2 == 0
    ensures GetScore(updates).Some? ==>
      GetScore(updates) == Some(Finite(Sum(seq(|updates|, i requires 0 <= i < |updates| => MiddleValue(updates[i])))))
  {
    var middles := seq(|updates|, i requires 0 <= i < |updates| => Middle(updates[i]));
    assert forall i :: 0 <= i < |updates| ==> (middles[i].None? <==> |updates[i]| % 2 == 0);
    LodashSumUndefined(middles);
    MiddlesSum(updates);
  }

  /** Even-length updates are skipped: [[1, 2, 3], [4, 5]] scores 2. */
  lemma EvenSkipped()
    ensures GetScore([[1, 2, 3], [4, 5]]) == Some(Finite(2))
  {
    GetScoreMeaning([[1, 2, 3], [4, 5]]);
    var values := seq(2, i requires 0 <= i < 2 => MiddleValue([[1, 2, 3], [4, 5]][i]));
    assert values == [2, 0];
    assert Sum([2, 0]) == Sum([2]) + 0 == 2;
  }

  /** The updates in a valid order, in their order. */
  function ValidUpdates(rules: seq<PageRule>, updates: seq<Update>): seq<Update>
  {
    if updates == [] then []
    else
      var last := updates[|updates| - 1];
      ValidUpdates(rules, updates[..|updates| - 1]) + if ValidOrder(rules, last) then [last] else []
  }

  function InvalidUpdates(rules: seq<PageRule>, updates: seq<Update>): seq<Update>
  {
    if updates == [] then []
    else
      var last := updates[|updates| - 1];
      InvalidUpdates(rules, updates[..|updates| - 1]) + if ValidOrder(rules, last) then [] else [last]
  }

  /** Every update goes to exactly one part. */
  lemma {:induction false} PartsSplit(rules: seq<PageRule>, updates: seq<Update>)
    ensures |ValidUpdates(rules, updates)| + |InvalidUpdates(rules, updates)| == |updates|
    ensures forall u :: u in ValidUpdates(rules, updates) ==> u in updates && ValidOrder(rules, u)
    ensures forall u :: u in InvalidUpdates(rules, updates) ==> u in updates && !ValidOrder(rules, u)
  {
    if updates != [] {
      PartsSplit(rules, updates[..|updates| - 1]);
    }
  }

  /** Part 1: the filter with `isValidOrder`, then the score. */
  method Part1(rules: seq<PageRule>, updates: seq<Update>) returns (score: Option<Num>)
    ensures score == GetScore(ValidUpdates(rules, updates))
  {
    var validUpdates: seq<Update> := [];
    for k := 0 to |updates|
      invariant validUpdates == ValidUpdates(rules, updates[..k])
    {
      assert updates[..k + 1][..k] == updates[..k];
      var ok := IsValidOrder(rules, updates[k]);
      if ok {
        validUpdates := validUpdates + [updates[k]];
      }
    }
    assert updates[..|updates|] == updates;
    score := GetScore(validUpdates);
  }

  /** The repair loop of part 2: `correctOrder` until the order is valid,
    * for at most `fuel` rounds. */
  method Repair(rules: seq<PageRule>, update: Update, fuel: nat) returns (r: Option<Update>)
    ensures r.Some? ==> ValidOrder(rules, r.value) && multiset(r.value) == multiset(update)
    ensures ValidOrder(rules, update) ==> r == Some(update)
  {
    var correctedUpdate := update;
    var valid := IsValidOrder(rules, correctedUpdate);
    var rounds := 0;
    while !valid
      invariant valid == ValidOrder(rules, correctedUpdate)
      invariant multiset(correctedUpdate) == multiset(update)
      invariant ValidOrder(rules, update) ==> correctedUpdate == update
      invariant rounds <= fuel
      decreases fuel - rounds
    {
      if rounds == fuel {
        return None;
      }
      CorrectedPermutes(rules, correctedUpdate);
      correctedUpdate := CorrectOrder(rules, correctedUpdate);
      valid := IsValidOrder(rules, correctedUpdate);
      rounds := rounds + 1;
    }
    return Some(correctedUpdate);
  }

  /** Part 2: the invalid updates repaired and scored; a failure when one is
    * not repaired within `fuel` rounds. */
  method Part2(rules: seq<PageRule>, updates: seq<Update>, fuel: nat) returns (score: Result<Option<Num>>)
    ensures score.Success? ==> exists corrected: seq<Update> ::
      && |corrected| == |InvalidUpdates(rules, updates)|
      && (forall i :: 0 <= i < |corrected| ==>
            (ValidOrder(rules, corrected[i]) && multiset(corrected[i]) == multiset(InvalidUpdates(rules, updates)[i])))
      && score == Success(GetScore(corrected))
  {
    var invalidUpdates: seq<Update> := [];
    for k := 0 to |updates|
      invariant invalidUpdates == InvalidUpdates(rules, updates[..k])
    {
      assert updates[..k + 1][..k] == updates[..k];
      var ok := IsValidOrder(rules, updates[k]);
      if !ok {
        invalidUpdates := invalidUpdates + [updates[k]];
      }
    }
    assert updates[..|updates|] == updates;
    var corrected: seq<Update> := [];
    for k := 0 to |invalidUpdates|
      invariant |corrected| == k
      invariant forall i :: 0 <= i < k ==> ValidOrder(rules, corrected[i]) && multiset(corrected[i]) == multiset(invalidUpdates[i])
    {
      var r := Repair(rules, invalidUpdates[k], fuel);
      if r.None? {
        return Failure("not repaired within the rounds allowed");
      }
      corrected := corrected + [r.value];
    }
    score := Success(GetScore(corrected));
  }
}
