/** 2023 day 4: scratchcards. A card's matches are the winning numbers it
    holds. Part 1 sums the cards' points, 0 without a match and doubling
    with each match after the first; in part 2 a card with m matches wins a
    copy of each of the next m cards, and the answer counts the cards. */
module Day2023_04 {
  import opened Common

  datatype Card = Card(number: int, yours: seq<int>, winning: seq<int>)

  /** Lodash `intersection(a, b)`: the values of `a` that occur in `b`, each
    * once, in order of first occurrence in `a`. */
  function Intersection(a: seq<int>, b: seq<int>): seq<int>
  {
    if a == [] then []
    else
      var init := Intersection(a[..|a| - 1], b);
      var last := a[|a| - 1];
      if last in b && last !in init then init + [last] else init
  }

  /** The intersection holds exactly the common values, each once. */
  lemma {:induction false} IntersectionIs(a: seq<int>, b: seq<int>)
    ensures forall v :: v in Intersection(a, b) <==> v in a && v in b
    ensures forall i, j :: 0 <= i < j < |Intersection(a, b)| ==> Intersection(a, b)[i] != Intersection(a, b)[j]
    ensures |Intersection(a, b)| <= |a|
  {
    if a != [] {
      var pre := a[..|a| - 1];
      IntersectionIs(pre, b);
      assert a == pre + [a[|a| - 1]];
    }
  }

  /** The order of first occurrence: a value comes before another in the
    * result only when it occurs in `a` before the other's first occurrence. */
  lemma {:induction false} IntersectionOrder(a: seq<int>, b: seq<int>, i: nat, j: nat)
    requires i < j < |Intersection(a, b)|
    ensures exists p :: 0 <= p < |a| && a[p] == Intersection(a, b)[i] && Intersection(a, b)[j] !in a[..p + 1]
  {
    var pre := a[..|a| - 1];
    IntersectionIs(pre, b);
    IntersectionIs(a, b);
    var init := Intersection(pre, b);
    var r := Intersection(a, b);
    if j < |init| {
      IntersectionOrder(pre, b, i, j);
      var p :| 0 <= p < |pre| && pre[p] == init[i] && init[j] !in pre[..p + 1];
      assert a[p] == r[i] && a[..p + 1] == pre[..p + 1];
    } else {
      assert r[j] == a[|a| - 1] && r[j] !in init;
      assert r[i] in init;
      var p :| 0 <= p < |pre| && pre[p] == r[i];
      assert a[p] == r[i] && a[..p + 1] == pre[..p + 1];
      assert r[j] in b;
    }
  }

  /** `getWinningNumbers` */
  function WinningNumbers(card: Card): seq<int>
  {
    Intersection(card.winning, card.yours)
  }

  function Matches(card: Card): nat
  {
    |WinningNumbers(card)|
  }

  function Pow2(k: nat): (r: nat)
    ensures r >= 1
  {
    if k == 0 then 1 else 2 * Pow2(k - 1)
  }

  /** A card's points: 0 without a match, else 2 to the matches less one. */
  function Points(m: nat): nat
  {
    if m == 0 then 0 else Pow2(m - 1)
  }

  /** One match is worth one point, and each further match doubles them. */
  lemma PointsDouble(m: nat)
    ensures Points(1) == 1
    ensures m >= 1 ==> Points(m + 1) == 2 * Points(m)
    ensures Points(m) == 0 <==> m == 0
  {
  }

  function CardPoints(cards: seq<Card>): (r: seq<int>)
    ensures |r| == |cards|
    ensures forall k :: 0 <= k < |cards| ==> r[k] == Points(Matches(cards[k]))
  {
    seq(|cards|, k requires 0 <= k < |cards| => Points(Matches(cards[k])))
  }

  /** Part 1: the sum of the points. */
  function Part1(cards: seq<Card>): (r: int)
    ensures r >= 0
  {
    SumNonNegative(CardPoints(cards));
    Sum(CardPoints(cards))
  }

  /** The intersection is empty exactly when no winning number is held. */
  lemma {:induction false} IntersectionEmpty(a: seq<int>, b: seq<int>)
    ensures Intersection(a, b) == [] <==> forall v :: v in a ==> v !in b
  {
    if a != [] {
      var pre := a[..|a| - 1];
      IntersectionEmpty(pre, b);
      assert a == pre + [a[|a| - 1]];
      IntersectionIs(pre, b);
    }
  }

  /** A card scores exactly when it holds a winning number. */
  lemma CardPointsAre(card: Card)
    ensures Points(Matches(card)) == 0 <==> forall v :: v in card.winning ==> v !in card.yours
  {
    IntersectionEmpty(card.winning, card.yours);
  }

  // ---------------------------------------------------------------------------
  // Part 2: card values, with JavaScript's numbers
  // ---------------------------------------------------------------------------

  /** `1 + sum(otherValues)`: NaN when the sum is `undefined`. */
  function OnePlus(s: Option<Num>): Num
  {
    if s.None? then NaN else AddNums(Finite(1), s.value)
  }

  /** The match count of each card. */
  function MatchCounts(cards: seq<Card>): (r: seq<nat>)
    ensures |r| == |cards| && forall k :: 0 <= k < |cards| ==> r[k] == Matches(cards[k])
  {
    seq(|cards|, k requires 0 <= k < |cards| => Matches(cards[k]))
  }

  /** The values of the `m` cards after a card, given the values `rest` of
    * the cards after it: those past the last card are `undefined`. */
  function Others(rest: seq<Num>, m: nat): (r: seq<Option<Num>>)
    ensures |r| == m && forall j :: 0 <= j < m ==> r[j] == if j < |rest| then Some(rest[j]) else None
  {
    seq(m, j requires 0 <= j < m => if j < |rest| then Some(rest[j]) else None)
  }

  /** The values of the cards from `from` on, given their match counts,
    * computed from the last card to the first: a card's value is one plus
    * the values of the cards it copies. */
  function Values(ms: seq<nat>, from: nat): (r: seq<Num>)
    requires from <= |ms|
    ensures |r| == |ms| - from
    decreases |ms| - from
  {
    if from == |ms| then []
    else
      var rest := Values(ms, from + 1);
      [OnePlus(LodashSum(Others(rest, ms[from])))] + rest
  }

  /** `cardValues.get(key)` */
  function Lookup(cardValues: map<int, Num>, key: int): Option<Num>
  {
    if key in cardValues then Some(cardValues[key]) else None
  }

  /** `matches.map(...)`: the values of the `m` cards after `idx`. */
  function OtherValues(cardValues: map<int, Num>, idx: int, m: nat): (r: seq<Option<Num>>)
    ensures |r| == m && forall j :: 0 <= j < m ==> r[j] == Lookup(cardValues, idx + j + 1)
  {
    seq(m, j requires 0 <= j < m => Lookup(cardValues, idx + j + 1))
  }

  /** The map holds exactly the values `vals` of the cards from `from` on. */
  ghost predicate Stored(cardValues: map<int, Num>, from: int, vals: seq<Num>)
  {
    && (forall k :: k in cardValues <==> from <= k < from + |vals|)
    && (forall j :: 0 <= j < |vals| ==> cardValues[from + j] == vals[j])
  }

  /** Storing a card's value in front of the values after it. */
  lemma Store(cardValues: map<int, Num>, idx: int, rest: seq<Num>, value: Num)
    requires Stored(cardValues, idx + 1, rest)
    ensures Stored(cardValues[idx := value], idx, [value] + rest)
  {
    var stored := cardValues[idx := value];
    forall j | 1 <= j < 1 + |rest|
      ensures stored[idx + j] == ([value] + rest)[j]
    {
      assert cardValues[idx + 1 + (j - 1)] == rest[j - 1];
    }
  }

  /** The loop of part 2, from the last card to the first, then the sum of
    * the values stored. */
  method Part2(cards: seq<Card>) returns (result: Num)
    ensures result == SumNums(Values(MatchCounts(cards), 0))
  {
    ghost var ms := MatchCounts(cards);
    var cardValues: map<int, Num> := map[];
    var idx := |cards|;
    while idx > 0
      invariant 0 <= idx <= |cards|
      invariant Stored(cardValues, idx, Values(ms, idx))
    {
      ghost var rest := Values(ms, idx);
      idx := idx - 1;
      var matches := Matches(cards[idx]);
      var otherValues := OtherValues(cardValues, idx, matches);
      LookupOthers(cardValues, idx, rest, matches);
      var value := OnePlus(LodashSum(otherValues));
      Store(cardValues, idx, rest, value);
      cardValues := cardValues[idx := value];
    }
    var values := seq(|cards|, k requires 0 <= k < |cards| => cardValues[k]);
    assert values == Values(ms, idx) by {
      forall k | 0 <= k < |cards|
        ensures values[k] == Values(ms, idx)[k]
      {
        assert cardValues[idx + k] == Values(ms, idx)[k];
      }
    }
    result := SumNums(values);
  }

  /** With the values of the cards after `idx` stored, `matches.map(...)`
    * gives the values of the copied cards and `undefined` past the last. */
  lemma LookupOthers(cardValues: map<int, Num>, idx: int, rest: seq<Num>, m: nat)
    requires Stored(cardValues, idx + 1, rest)
    ensures OtherValues(cardValues, idx, m) == Others(rest, m)
  {
    forall j | 0 <= j < m
      ensures OtherValues(cardValues, idx, m)[j] == Others(rest, m)[j]
    {
      if j < |rest| {
        assert cardValues[idx + 1 + j] == rest[j];
      }
    }
  }

  /** The cards a card copies all exist. */
  predicate CopiesExist(ms: seq<nat>)
  {
    forall k :: 0 <= k < |ms| ==> k + ms[k] < |ms|
  }

  /** Every value is a number of at least 1. */
  predicate AtLeastOne(xs: seq<Num>)
  {
    forall k :: 0 <= k < |xs| ==> xs[k].Finite? && xs[k].n >= 1
  }

  /** When every copy exists, each card is worth at least itself. */
  lemma {:induction false} ValuesAtLeastOne(ms: seq<nat>, from: nat)
    requires from <= |ms| && CopiesExist(ms)
    ensures AtLeastOne(Values(ms, from))
    decreases |ms| - from
  {
    if from < |ms| {
      ValuesAtLeastOne(ms, from + 1);
      var rest := Values(ms, from + 1);
      var m := ms[from];
      ValueRecurrence(ms, from);
      AtLeastOnePrefix(rest, m);
      SumAtLeast(rest[..m]);
      AtLeastOneCons(Values(ms, from)[0], rest);
    }
  }

  lemma AtLeastOnePrefix(xs: seq<Num>, m: nat)
    requires AtLeastOne(xs) && m <= |xs|
    ensures AtLeastOne(xs[..m])
  {
  }

  lemma AtLeastOneCons(x: Num, xs: seq<Num>)
    requires x.Finite? && x.n >= 1 && AtLeastOne(xs)
    ensures AtLeastOne([x] + xs)
  {
    forall k | 1 <= k < 1 + |xs|
      ensures ([x] + xs)[k] == xs[k - 1]
    {
    }
  }

  /** When its copies exist, a card's value is one plus the values of the
    * next `m` cards. */
  lemma ValueRecurrence(ms: seq<nat>, from: nat)
    requires from < |ms| && from + ms[from] < |ms|
    ensures ms[from] < |Values(ms, from)|
    ensures Values(ms, from)[0] == AddNums(Finite(1), SumNums(Values(ms, from)[1..ms[from] + 1]))
    ensures Values(ms, from)[1..ms[from] + 1] == Values(ms, from + 1)[..ms[from]]
    ensures Values(ms, from) == [Values(ms, from)[0]] + Values(ms, from + 1)
  {
    var rest := Values(ms, from + 1);
    var m := ms[from];
    AllCopied(rest, m);
    var v := Values(ms, from);
    assert v == [AddNums(Finite(1), SumNums(rest[..m]))] + rest;
    assert v[1..m + 1] == rest[..m];
  }

  /** When every copied card exists, the sum is the sum of their values. */
  lemma AllCopied(rest: seq<Num>, m: nat)
    requires m <= |rest|
    ensures LodashSum(Others(rest, m)) == Some(SumNums(rest[..m]))
  {
    DefinedAll(Others(rest, m), rest[..m]);
  }

  lemma {:induction false} DefinedAll(xs: seq<Option<Num>>, ys: seq<Num>)
    requires |xs| == |ys| && forall k :: 0 <= k < |xs| ==> xs[k] == Some(ys[k])
    ensures Defined(xs) == ys
  {
    if xs != [] {
      DefinedAll(xs[..|xs| - 1], ys[..|ys| - 1]);
    }
  }

  /** Numbers each at least 1 sum to at least their count. */
  lemma {:induction false} SumAtLeast(xs: seq<Num>)
    requires AtLeastOne(xs)
    ensures SumNums(xs).Finite? && SumNums(xs).n >= |xs|
  {
    if xs != [] {
      SumAtLeast(xs[..|xs| - 1]);
    }
  }

  /** When every copy exists, part 2 counts at least the original cards. */
  lemma Part2AtLeastCards(cards: seq<Card>)
    requires CopiesExist(MatchCounts(cards))
    ensures SumNums(Values(MatchCounts(cards), 0)).Finite?
    ensures SumNums(Values(MatchCounts(cards), 0)).n >= |cards|
  {
    ValuesAtLeastOne(MatchCounts(cards), 0);
    SumAtLeast(Values(MatchCounts(cards), 0));
  }

  /** A last card with a match copies only cards that do not exist: its value
    * is 1 plus `undefined`, NaN, and so is part 2. */
  lemma LastCardNaN(ms: seq<nat>)
    requires ms != [] && ms[|ms| - 1] > 0
    ensures Values(ms, |ms| - 1)[0] == NaN
    ensures SumNums(Values(ms, 0)) == NaN
  {
    LodashSumUndefined(Others([], ms[|ms| - 1]));
    ValuesSuffix(ms, 0, |ms| - 1);
    SumNumsFinite(Values(ms, 0));
  }

  lemma {:induction false} ValuesSuffix(ms: seq<nat>, from: nat, k: nat)
    requires from <= k < |ms|
    ensures Values(ms, from)[k - from] == Values(ms, k)[0]
    decreases k - from
  {
    if from < k {
      ValuesSuffix(ms, from + 1, k);
    }
  }
}
