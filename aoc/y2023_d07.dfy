/** 2023 day 7: camel poker. Each hand of five cards gets a type from how
    many cards of each kind it holds, optionally counting the J cards as
    jokers; the games are ordered weakest first by type and then by the
    first card that differs, and the answer sums rank times bet. */
module Day2023_07 {
  import opened Common

  /** `cardValues`, strongest first. */
  const CardValues: string := "AKQJT98765432"

  /** A hand is five of the known cards. */
  predicate ValidHand(hand: string)
  {
    |hand| == 5 && forall i :: 0 <= i < 5 ==> CardIndex(hand[i]) >= 0
  }

  /** `handTypes`, strongest first. */
  datatype HandType = FiveKind | FourKind | FullHouse | ThreeKind | TwoPair | OnePair | HighCard

  /** `handTypes.indexOf(type)` */
  function TypeIndex(t: HandType): (r: nat)
    ensures r < 7
  {
    match t
    case FiveKind => 0
    case FourKind => 1
    case FullHouse => 2
    case ThreeKind => 3
    case TwoPair => 4
    case OnePair => 5
    case HighCard => 6
  }

  datatype Game = Game(hand: string, handType: HandType, bet: int)

  /** The `Hand` type: five cards. */
  predicate ValidGame(g: Game)
  {
    |g.hand| == 5
  }

  /** Five cards, each one of `cardValues`. */
  predicate KnownGame(g: Game)
  {
    ValidHand(g.hand)
  }

  // ---------------------------------------------------------------------------
  // The type of a hand
  // ---------------------------------------------------------------------------

  /** The keys of `countBy(hand)`: each kind of card once. */
  function Kinds(hand: string): string
  {
    if hand == [] then []
    else
      var init := Kinds(hand[..|hand| - 1]);
      var last := hand[|hand| - 1];
      if last in init then init else init + [last]
  }

  /** The kinds are the cards of the hand, each once. */
  lemma {:induction false} KindsAre(hand: string)
    ensures forall c :: c in Kinds(hand) <==> c in hand
    ensures Distinct(Kinds(hand))
  {
    if hand != [] {
      var init := hand[..|hand| - 1];
      KindsAre(init);
      assert hand == init + [hand[|hand| - 1]];
    }
  }

  predicate Distinct(s: string)
  {
    forall i, j :: 0 <= i < j < |s| ==> s[i] != s[j]
  }

  /** `delete countsDict[c]` */
  function Without(kinds: string, c: char): string
  {
    if kinds == [] then []
    else
      var rest := Without(kinds[1..], c);
      if kinds[0] == c then rest else [kinds[0]] + rest
  }

  /** Deleting a key keeps every other, each once. */
  lemma {:induction false} WithoutIs(kinds: string, c: char)
    ensures forall x :: x in Without(kinds, c) <==> x in kinds && x != c
    ensures Distinct(kinds) ==> Distinct(Without(kinds, c)) && |Without(kinds, c)| == |kinds| - (if c in kinds then 1 else 0)
  {
    if kinds != [] {
      WithoutIs(kinds[1..], c);
      assert kinds == [kinds[0]] + kinds[1..];
      if Distinct(kinds) {
        forall x | x in kinds[1..]
          ensures x != kinds[0]
        {
          var i :| 0 <= i < |kinds[1..]| && kinds[1..][i] == x;
          assert kinds[i + 1] == x;
        }
        assert Distinct(kinds[1..]);
        assert kinds[0] !in Without(kinds[1..], c);
      }
    }
  }

  /** The counts of the given kinds of card. */
  function CountsOf(hand: string, kinds: string): seq<int>
  {
    seq(|kinds|, i requires 0 <= i < |kinds| => Count(hand, kinds[i]))
  }

  function Reverse(s: seq<int>): seq<int>
  {
    seq(|s|, i requires 0 <= i < |s| => s[|s| - 1 - i])
  }

  /** `reverse(values.sort())`: largest first. */
  function Descending(s: seq<int>): (r: seq<int>)
    ensures |r| == |s|
  {
    Reverse(Sort(s))
  }

  /** Jokers count only when the hand holds more than one kind of card. */
  predicate Wild(hand: string, jokers: bool)
  {
    jokers && |Kinds(hand)| != 1
  }

  /** The kinds whose counts are ranked: all of them, or all but J. */
  function Ranked(hand: string, jokers: bool): string
  {
    if Wild(hand, jokers) then Without(Kinds(hand), 'J') else Kinds(hand)
  }

  /** `jokersCount`: 0, or `countsDict["J"]`, which is `undefined` (here
    * None) when the hand has no J. */
  function JokersCount(hand: string, jokers: bool): Option<int>
  {
    if !Wild(hand, jokers) then Some(0)
    else if 'J' in Kinds(hand) then Some(Count(hand, 'J'))
    else None
  }

  /** The branches of `getType` on `counts[0]` and `counts[1]`; None stands
    * for a count that is `undefined` or NaN. */
  function Classify(first: Option<int>, second: Option<int>): HandType
  {
    if first == Some(5) then FiveKind
    else if first == Some(4) then FourKind
    else if first == Some(3) then (if second == Some(2) then FullHouse else ThreeKind)
    else if first == Some(2) then (if second == Some(2) then TwoPair else OnePair)
    else HighCard
  }

  /** `getType`, with the counts sorted largest first and the jokers added to
    * the first. */
  function TypeOf(hand: string, jokers: bool): HandType
  {
    Classify(First(hand, jokers), Second(hand, jokers))
  }

  /** `counts`: the ranked kinds' counts, largest first. */
  function Counts(hand: string, jokers: bool): seq<int>
  {
    Descending(CountsOf(hand, Ranked(hand, jokers)))
  }

  function First(hand: string, jokers: bool): Option<int>
  {
    AddJokers(Counts(hand, jokers), JokersCount(hand, jokers))
  }

  function Second(hand: string, jokers: bool): Option<int>
  {
    SecondOf(Counts(hand, jokers))
  }

  /** `counts[0] += jokersCount`: None when there is no count or the
    * jokers are `undefined`. */
  function AddJokers(counts: seq<int>, jokersCount: Option<int>): Option<int>
  {
    if counts == [] || jokersCount.None? then None else Some(counts[0] + jokersCount.value)
  }

  /** `counts[1]` */
  function SecondOf(counts: seq<int>): Option<int>
  {
    if |counts| > 1 then Some(counts[1]) else None
  }

  /** `getType`: count the kinds, take the jokers out, sort the counts and
    * add the jokers to the largest. */
  method GetType(hand: string, jokers: bool) returns (t: HandType)
    ensures t == TypeOf(hand, jokers)
  {
    var first, second := TopCounts(hand, jokers);
    if first == Some(5) {
      return FiveKind;
    } else if first == Some(4) {
      return FourKind;
    } else if first == Some(3) {
      if second == Some(2) {
        return FullHouse;
      } else {
        return ThreeKind;
      }
    } else if first == Some(2) {
      if second == Some(2) {
        return TwoPair;
      } else {
        return OnePair;
      }
    } else {
      return HighCard;
    }
  }

  /** The first step of `getType`: the kinds of card, less J when jokers
    * are wild, and the number of jokers. */
  method RankKinds(hand: string, jokers: bool) returns (countsDict: string, jokersCount: Option<int>)
    ensures countsDict == Ranked(hand, jokers) && jokersCount == JokersCount(hand, jokers)
  {
    countsDict := Kinds(hand);
    jokersCount := Some(0);
    if jokers && |countsDict| != 1 {
      jokersCount := if 'J' in countsDict then Some(Count(hand, 'J')) else None;
      countsDict := Without(countsDict, 'J');
    }
  }

  /** The second step of `getType`: the two largest counts, the jokers
    * added to the first. */
  method TopCounts(hand: string, jokers: bool) returns (first: Option<int>, second: Option<int>)
    ensures first == First(hand, jokers) && second == Second(hand, jokers)
  {
    var countsDict, jokersCount := RankKinds(hand, jokers);
    var counts := Descending(CountsOf(hand, countsDict));
    first, second := AddToLargest(counts, jokersCount);
  }

  /** The jokers added in place to the largest count, and the second. */
  method AddToLargest(counts: seq<int>, jokersCount: Option<int>) returns (first: Option<int>, second: Option<int>)
    ensures first == AddJokers(counts, jokersCount) && second == SecondOf(counts)
  {
    var updated := counts;
    first := None;
    if updated != [] && jokersCount.Some? {
      updated := updated[0 := updated[0] + jokersCount.value];
      first := Some(updated[0]);
    }
    second := if |updated| > 1 then Some(updated[1]) else None;
  }

  /** Sorting largest first puts the largest count first. */
  lemma DescendingFirst(s: seq<int>)
    requires |s| >= 1
    ensures Descending(s)[0] == Max(s)
  {
    SortedLastIsMax(Sort(s), s);
  }

  lemma SortedLastIsMax(r: seq<int>, s: seq<int>)
    requires s != [] && |r| == |s| && SortedAsc(r) && multiset(r) == multiset(s)
    ensures r[|r| - 1] == Max(s)
  {
    LastIsMax(r, s);
    assert IsMax(Max(s), s);
  }

  /** ... and the largest of the others second. */
  lemma DescendingSecond(s: seq<int>)
    requires |s| >= 2
    ensures IsTopTwo(s, Descending(s)[0], Descending(s)[1])
  {
    var r := Sort(s);
    var n := |s|;
    assert Descending(s)[0] == r[n - 1] && Descending(s)[1] == r[n - 2];
    SortedTopTwo(s, r);
  }

  /** `getType` classifies a hand by its largest and second largest counts,
    * the jokers, when they count, added to the largest. */
  lemma TypeByTopTwo(hand: string, jokers: bool, a: int, b: int)
    requires IsTopTwo(CountsOf(hand, Ranked(hand, jokers)), a, b)
    ensures TypeOf(hand, jokers) == Classify(
      if JokersCount(hand, jokers).None? then None else Some(a + JokersCount(hand, jokers).value), Some(b))
  {
    var counts := CountsOf(hand, Ranked(hand, jokers));
    DescendingSecond(counts);
    TopTwoUnique(counts, a, b, Descending(counts)[0], Descending(counts)[1]);
  }

  /** A hand of one kind of card is classified by its single count. */
  lemma TypeOfOneKind(hand: string, jokers: bool)
    requires |Kinds(hand)| == 1
    ensures TypeOf(hand, jokers) == Classify(Some(|hand|), None)
  {
    assert Ranked(hand, jokers) == Kinds(hand) && JokersCount(hand, jokers) == Some(0);
    OneKindCounts(hand);
    SingleDescending(|hand|);
  }

  lemma OneKindCounts(hand: string)
    requires |Kinds(hand)| == 1
    ensures CountsOf(hand, Kinds(hand)) == [|hand|]
  {
    KindsAre(hand);
    var c := Kinds(hand)[0];
    forall i | 0 <= i < |hand|
      ensures hand[i] == c
    {
      assert hand[i] in Kinds(hand);
    }
    OneKindCount(hand, c);
  }

  lemma SingleDescending(x: int)
    ensures Descending([x]) == [x]
  {
    assert Sort([x]) == [x] by {
      assert multiset(Sort([x])) == multiset{x};
      assert Sort([x])[0] in multiset(Sort([x]));
    }
  }

  lemma {:induction false} OneKindCount(hand: string, c: char)
    requires forall i :: 0 <= i < |hand| ==> hand[i] == c
    ensures Count(hand, c) == |hand|
  {
    if hand != [] {
      OneKindCount(hand[..|hand| - 1], c);
    }
  }

  /** The largest entry and the largest of the others are unique. */
  lemma TopTwoUnique(s: seq<int>, a: int, b: int, a': int, b': int)
    requires IsTopTwo(s, a, b) && IsTopTwo(s, a', b')
    ensures a == a' && b == b'
  {
    var i, j :| 0 <= i < |s| && 0 <= j < |s| && i != j && s[i] == a && s[j] == b && b <= a
      && forall k :: 0 <= k < |s| && k != i && k != j ==> s[k] <= b;
    var i', j' :| 0 <= i' < |s| && 0 <= j' < |s| && i' != j' && s[i'] == a' && s[j'] == b' && b' <= a'
      && forall k :: 0 <= k < |s| && k != i' && k != j' ==> s[k] <= b';
    assert s[i'] <= a && s[i] <= a';
  }

  /** With jokers, the J count joins the largest count of the other kinds. */
  lemma JokersJoinLargest(hand: string)
    requires ValidHand(hand) && |Kinds(hand)| != 1 && 'J' in hand
    ensures Ranked(hand, true) == Without(Kinds(hand), 'J') && Ranked(hand, true) != []
    ensures 'J' !in Ranked(hand, true)
    ensures JokersCount(hand, true) == Some(Count(hand, 'J'))
  {
    KindsAre(hand);
    WithoutIs(Kinds(hand), 'J');
    assert hand[0] in Kinds(hand);
  }

  /** As written, with jokers a hand without a J and of more than one kind
    * adds `undefined` to its largest count and is always a high card. */
  lemma NoJokerIsHighCard(hand: string)
    requires 'J' !in hand && |Kinds(hand)| != 1
    ensures TypeOf(hand, true) == HighCard
  {
    JokersUndefined(hand);
    assert First(hand, true) == None;
  }

  lemma JokersUndefined(hand: string)
    requires 'J' !in hand && |Kinds(hand)| != 1
    ensures JokersCount(hand, true) == None
  {
    KindsAre(hand);
  }

  /** A four of a kind without a J drops to a high card in part 2. */
  lemma FourKindDrops(a: char, k: char)
    requires a != k && a != 'J' && k != 'J'
    ensures TypeOf([a, a, a, a, k], false) == FourKind
    ensures TypeOf([a, a, a, a, k], true) == HighCard
  {
    var hand := [a, a, a, a, k];
    FourAndOneKinds(a, k);
    NoJokerIsHighCard(hand);
    var counts := CountsOf(hand, [a, k]);
    FourAndOneCounts(a, k);
    assert counts == [4, 1];
    assert IsTopTwo(counts, 4, 1) by {
      assert counts[0] == 4 && counts[1] == 1;
    }
    TypeByTopTwo(hand, false, 4, 1);
  }

  lemma FourAndOneKinds(a: char, k: char)
    requires a != k
    ensures Kinds([a, a, a, a, k]) == [a, k]
  {
    var hand := [a, a, a, a, k];
    assert Kinds(hand[..1]) == [a];
    assert Kinds(hand[..2]) == [a] by { assert hand[..2][..1] == hand[..1]; }
    assert Kinds(hand[..3]) == [a] by { assert hand[..3][..2] == hand[..2]; }
    assert Kinds(hand[..4]) == [a] by { assert hand[..4][..3] == hand[..3]; }
    assert hand[..4] == hand[..|hand| - 1];
  }

  lemma FourAndOneCounts(a: char, k: char)
    requires a != k
    ensures Count([a, a, a, a, k], a) == 4 && Count([a, a, a, a, k], k) == 1
  {
    var hand := [a, a, a, a, k];
    assert hand[..1][..0] == [];
    assert Count(hand[..1], a) == 1 && Count(hand[..1], k) == 0;
    assert hand[..2][..1] == hand[..1];
    assert Count(hand[..2], a) == 2 && Count(hand[..2], k) == 0;
    assert hand[..3][..2] == hand[..2];
    assert Count(hand[..3], a) == 3 && Count(hand[..3], k) == 0;
    assert hand[..4][..3] == hand[..3];
    assert Count(hand[..4], a) == 4 && Count(hand[..4], k) == 0;
    assert hand[..4] == hand[..|hand| - 1];
  }

  /** The evidently intended `jokersCount`: the number of J cards, 0 when
    * there is none. */
  function CorrectedJokersCount(hand: string, jokers: bool): int
  {
    if Wild(hand, jokers) then Count(hand, 'J') else 0
  }

  function CorrectedTypeOf(hand: string, jokers: bool): HandType
  {
    Classify(AddJokers(Counts(hand, jokers), Some(CorrectedJokersCount(hand, jokers))), Second(hand, jokers))
  }

  /** Corrected, a hand without a J has the same type with jokers as
    * without. */
  lemma CorrectedWithoutJoker(hand: string)
    requires 'J' !in hand
    ensures CorrectedTypeOf(hand, true) == TypeOf(hand, false)
  {
    RankedWithoutJoker(hand);
    assert JokersCount(hand, false) == Some(0);
  }

  lemma RankedWithoutJoker(hand: string)
    requires 'J' !in hand
    ensures Ranked(hand, true) == Ranked(hand, false) && CorrectedJokersCount(hand, true) == 0
  {
    KindsAre(hand);
    CountAbsent(hand, 'J');
    WithoutAbsent(Kinds(hand), 'J');
  }

  /** Corrected, a hand with a J is typed as written. */
  lemma CorrectedWithJoker(hand: string, jokers: bool)
    requires 'J' in hand
    ensures CorrectedTypeOf(hand, jokers) == TypeOf(hand, jokers)
  {
    JokersDefined(hand, jokers);
  }

  lemma JokersDefined(hand: string, jokers: bool)
    requires 'J' in hand
    ensures JokersCount(hand, jokers) == Some(CorrectedJokersCount(hand, jokers))
  {
    KindsAre(hand);
  }

  lemma {:induction false} CountAbsent(s: string, c: char)
    requires c !in s
    ensures Count(s, c) == 0
  {
    if s != [] {
      assert s == s[..|s| - 1] + [s[|s| - 1]];
      CountAbsent(s[..|s| - 1], c);
    }
  }

  lemma {:induction false} WithoutAbsent(kinds: string, c: char)
    requires c !in kinds
    ensures Without(kinds, c) == kinds
  {
    if kinds != [] {
      assert kinds == [kinds[0]] + kinds[1..];
      WithoutAbsent(kinds[1..], c);
    }
  }

  // ---------------------------------------------------------------------------
  // Ordering games
  // ---------------------------------------------------------------------------

  /** `cardValues.indexOf(c)`, spelled out card by card. */
  function CardIndex(c: char): int
  {
    match c
    case 'A' => 0
    case 'K' => 1
    case 'Q' => 2
    case 'J' => 3
    case 'T' => 4
    case '9' => 5
    case '8' => 6
    case '7' => 7
    case '6' => 8
    case '5' => 9
    case '4' => 10
    case '3' => 11
    case '2' => 12
    case _ => -1
  }

  /** The spelled-out index is `indexOf` on `cardValues`: -1 for any other
    * character. */
  lemma CardIndexIsIndexOf(c: char)
    ensures CardIndex(c) == IndexOf(CardValues, c)
    ensures CardIndex(c) >= 0 <==> c in CardValues
  {
    IndexOfMeaning(CardValues, c);
    var i := IndexOf(CardValues, c);
    CardValuesIndexed();
    if i >= 0 {
      assert CardIndex(CardValues[i]) == i;
    } else if CardIndex(c) >= 0 {
      CardAtIndex(c);
    }
  }

  lemma CardValuesIndexed()
    ensures forall k :: 0 <= k < |CardValues| ==> CardIndex(CardValues[k]) == k
  {
  }

  lemma CardAtIndex(c: char)
    requires CardIndex(c) >= 0
    ensures CardIndex(c) < |CardValues| && CardValues[CardIndex(c)] == c
  {
  }

  /** Distinct cards have distinct indices. */
  lemma CardIndexIs(c: char)
    requires CardIndex(c) >= 0
    ensures CardIndex(c) < 13
    ensures forall d :: CardIndex(d) == CardIndex(c) ==> d == c
  {
  }

  /** The loop of `gameComparator` from card `i` on. */
  function CompareCards(x: string, y: string, i: nat): int
    requires i <= 5 && |x| == 5 && |y| == 5
    decreases 5 - i
  {
    if i == 5 then 0
    else if x[i] != y[i] then CardIndex(y[i]) - CardIndex(x[i])
    else CompareCards(x, y, i + 1)
  }

  /** `gameComparator`: negative when `a` is the weaker game. */
  function Compare(a: Game, b: Game): int
    requires ValidGame(a) && ValidGame(b)
  {
    if a.handType != b.handType then TypeIndex(b.handType) - TypeIndex(a.handType)
    else CompareCards(a.hand, b.hand, 0)
  }

  method GameComparator(a: Game, b: Game) returns (r: int)
    requires ValidGame(a) && ValidGame(b)
    ensures r == Compare(a, b)
  {
    if a.handType != b.handType {
      var aTypeIdx: int := TypeIndex(a.handType);
      var bTypeIdx: int := TypeIndex(b.handType);
      return bTypeIdx - aTypeIdx;
    }
    for i := 0 to 5
      invariant CompareCards(a.hand, b.hand, 0) == CompareCards(a.hand, b.hand, i)
    {
      var aVal := a.hand[i];
      var bVal := b.hand[i];
      if aVal != bVal {
        var aValIdx := CardIndex(aVal);
        var bValIdx := CardIndex(bVal);
        return bValIdx - aValIdx;
      }
    }
    return 0;
  }

  /** The first `i` cards agree and card `i` of `x` is the weaker. */
  predicate WeakerAt(x: string, y: string, i: nat)
    requires i < 5 && |x| == 5 && |y| == 5
  {
    x[..i] == y[..i] && CardIndex(x[i]) > CardIndex(y[i])
  }

  /** `gameComparator` orders by type, then by the first card that differs,
    * weaker first. */
  lemma CompareOrders(a: Game, b: Game)
    requires KnownGame(a) && KnownGame(b)
    ensures Compare(a, b) < 0 <==> (TypeIndex(a.handType) > TypeIndex(b.handType)
      || (a.handType == b.handType && exists i :: 0 <= i < 5 && WeakerAt(a.hand, b.hand, i)))
  {
    if a.handType == b.handType {
      CardsOrder(a.hand, b.hand, 0);
    } else {
      assert TypeIndex(a.handType) != TypeIndex(b.handType);
    }
  }

  lemma {:induction false} CardsOrder(x: string, y: string, i: nat)
    requires i <= 5 && ValidHand(x) && ValidHand(y) && x[..i] == y[..i]
    ensures CompareCards(x, y, i) < 0 <==> exists k :: i <= k < 5 && WeakerAt(x, y, k)
    decreases 5 - i
  {
    if i < 5 {
      if x[i] != y[i] {
        CardIndexIs(x[i]);
        CardIndexIs(y[i]);
        forall k | i < k < 5
          ensures !WeakerAt(x, y, k)
        {
          assert x[..k][i] == x[i] && y[..k][i] == y[i];
        }
        assert CompareCards(x, y, i) < 0 <==> WeakerAt(x, y, i);
      } else {
        assert !WeakerAt(x, y, i);
        assert x[..i + 1] == y[..i + 1] by {
          assert x[..i + 1] == x[..i] + [x[i]] && y[..i + 1] == y[..i] + [y[i]];
        }
        CardsOrder(x, y, i + 1);
      }
    }
  }

  /** The comparator is antisymmetric. */
  lemma CompareAntisymmetric(a: Game, b: Game)
    requires ValidGame(a) && ValidGame(b)
    ensures Compare(a, b) == -Compare(b, a)
  {
    if a.handType == b.handType {
      CardsAntisymmetric(a.hand, b.hand, 0);
    }
  }

  lemma {:induction false} CardsAntisymmetric(x: string, y: string, i: nat)
    requires i <= 5 && |x| == 5 && |y| == 5
    ensures CompareCards(x, y, i) == -CompareCards(y, x, i)
    decreases 5 - i
  {
    if i < 5 && x[i] == y[i] {
      CardsAntisymmetric(x, y, i + 1);
    }
  }

  /** The comparator returns 0 exactly for games of the same type and the
    * same five cards. */
  lemma CompareZero(a: Game, b: Game)
    requires KnownGame(a) && KnownGame(b)
    ensures Compare(a, b) == 0 <==> a.handType == b.handType && a.hand == b.hand
  {
    if a.handType != b.handType {
      assert TypeIndex(a.handType) != TypeIndex(b.handType);
    } else {
      CardsZero(a.hand, b.hand, 0);
      assert a.hand[..0] == b.hand[..0];
      assert a.hand[..5] == a.hand && b.hand[..5] == b.hand;
    }
  }

  lemma {:induction false} CardsZero(x: string, y: string, i: nat)
    requires i <= 5 && ValidHand(x) && ValidHand(y)
    ensures CompareCards(x, y, i) == 0 <==> x[i..] == y[i..]
    decreases 5 - i
  {
    if i < 5 {
      assert x[i..] == [x[i]] + x[i + 1..] && y[i..] == [y[i]] + y[i + 1..];
      if x[i] != y[i] {
        CardIndexIs(x[i]);
        CardIndexIs(y[i]);
      } else {
        CardsZero(x, y, i + 1);
      }
    }
  }

  /** The comparator is transitive, strictly so when either step is strict:
    * `sort` orders the games consistently. */
  lemma CompareTransitive(a: Game, b: Game, c: Game)
    requires KnownGame(a) && KnownGame(b) && KnownGame(c)
    requires Compare(a, b) <= 0 && Compare(b, c) <= 0
    ensures Compare(a, c) <= 0
    ensures Compare(a, b) < 0 || Compare(b, c) < 0 ==> Compare(a, c) < 0
  {
    if a.handType == b.handType && b.handType == c.handType {
      CardsTransitive(a.hand, b.hand, c.hand, 0);
    } else {
      CompareZero(a, b);
      CompareZero(b, c);
    }
  }

  lemma {:induction false} CardsTransitive(x: string, y: string, z: string, i: nat)
    requires i <= 5 && ValidHand(x) && ValidHand(y) && ValidHand(z)
    requires CompareCards(x, y, i) <= 0 && CompareCards(y, z, i) <= 0
    ensures CompareCards(x, z, i) <= 0
    ensures CompareCards(x, y, i) < 0 || CompareCards(y, z, i) < 0 ==> CompareCards(x, z, i) < 0
    decreases 5 - i
  {
    if i < 5 {
      CardIndexIs(x[i]);
      CardIndexIs(y[i]);
      CardIndexIs(z[i]);
      if x[i] == y[i] && y[i] == z[i] {
        CardsTransitive(x, y, z, i + 1);
      }
    }
  }

  // ---------------------------------------------------------------------------
  // Winnings
  // ---------------------------------------------------------------------------

  predicate ValidGames(games: seq<Game>)
  {
    forall k :: 0 <= k < |games| ==> ValidGame(games[k])
  }

  predicate KnownGames(games: seq<Game>)
  {
    ValidGames(games) && forall k :: 0 <= k < |games| ==> KnownGame(games[k])
  }

  /** A stable sort with the comparator places game `j` before game `k`:
    * it is weaker, or equal and earlier. */
  predicate Before(games: seq<Game>, j: nat, k: nat)
    requires ValidGames(games) && j < |games| && k < |games|
  {
    Compare(games[j], games[k]) < 0 || (j < k && Compare(games[j], games[k]) == 0)
  }

  /** The number of the first `n` games placed before game `k`. */
  function CountBefore(games: seq<Game>, k: nat, n: nat): nat
    requires ValidGames(games) && k < |games| && n <= |games|
  {
    if n == 0 then 0 else CountBefore(games, k, n - 1) + (if Before(games, n - 1, k) then 1 else 0)
  }

  /** The rank of game `k` once sorted, 1 for the weakest. */
  function Rank(games: seq<Game>, k: nat): int
    requires ValidGames(games) && k < |games|
  {
    1 + CountBefore(games, k, |games|)
  }

  /** `(idx + 1) * game.bet` for each game, in input order. */
  function RankedBets(games: seq<Game>): (r: seq<int>)
    requires ValidGames(games)
    ensures |r| == |games| && forall k :: 0 <= k < |games| ==> r[k] == Rank(games, k) * games[k].bet
  {
    seq(|games|, k requires 0 <= k < |games| => Rank(games, k) * games[k].bet)
  }

  /** `getWinnings` */
  function Winnings(games: seq<Game>): int
    requires ValidGames(games)
  {
    Sum(RankedBets(games))
  }

  /** The ranks run from 1 to the number of games. */
  lemma RankBounds(games: seq<Game>, k: nat)
    requires KnownGames(games) && k < |games|
    ensures 1 <= Rank(games, k) <= |games|
  {
    CompareZero(games[k], games[k]);
    CountBeforeBound(games, k, |games|);
  }

  lemma {:induction false} CountBeforeBound(games: seq<Game>, k: nat, n: nat)
    requires ValidGames(games) && k < |games| && n <= |games| && !Before(games, k, k)
    ensures CountBefore(games, k, n) <= n - (if k < n then 1 else 0)
  {
    if n > 0 {
      CountBeforeBound(games, k, n - 1);
    }
  }

  /** A game weaker than another, or equal to it and earlier, ranks lower. */
  lemma RankOrders(games: seq<Game>, j: nat, k: nat)
    requires KnownGames(games) && j < |games| && k < |games| && Before(games, j, k)
    ensures Rank(games, j) < Rank(games, k)
  {
    forall x | 0 <= x < |games| && Before(games, x, j)
      ensures Before(games, x, k)
    {
      CompareTransitive(games[x], games[j], games[k]);
      if Compare(games[x], games[j]) == 0 && Compare(games[j], games[k]) == 0 {
        CompareAntisymmetric(games[x], games[k]);
      }
    }
    CompareZero(games[j], games[j]);
    CountBeforeMonotone(games, j, k, |games|);
  }

  lemma {:induction false} CountBeforeMonotone(games: seq<Game>, j: nat, k: nat, n: nat)
    requires ValidGames(games) && j < |games| && k < |games| && n <= |games|
    requires Before(games, j, k) && !Before(games, j, j)
    requires forall x :: 0 <= x < |games| && Before(games, x, j) ==> Before(games, x, k)
    ensures CountBefore(games, j, n) + (if j < n then 1 else 0) <= CountBefore(games, k, n)
  {
    if n > 0 {
      CountBeforeMonotone(games, j, k, n - 1);
    }
  }

  /** No two games share a rank: the ranks are 1 to n, each once, so the
    * winnings are the bets weighted by their places in the sorted list. */
  lemma RanksDistinct(games: seq<Game>, j: nat, k: nat)
    requires KnownGames(games) && j < |games| && k < |games| && j != k
    ensures Rank(games, j) != Rank(games, k)
  {
    CompareAntisymmetric(games[j], games[k]);
    if Before(games, j, k) {
      RankOrders(games, j, k);
    } else {
      RankOrders(games, k, j);
    }
  }

  /** A game weaker than every other is ranked 1. */
  lemma WeakestFirst(games: seq<Game>, k: nat)
    requires KnownGames(games) && k < |games|
    requires forall j :: 0 <= j < |games| && j != k ==> Compare(games[k], games[j]) < 0
    ensures Rank(games, k) == 1
  {
    forall j | 0 <= j < |games| && j != k
      ensures !Before(games, j, k)
    {
      CompareAntisymmetric(games[k], games[j]);
    }
    CompareZero(games[k], games[k]);
    NoneBefore(games, k, |games|);
  }

  lemma {:induction false} NoneBefore(games: seq<Game>, k: nat, n: nat)
    requires ValidGames(games) && k < |games| && n <= |games|
    requires forall j :: 0 <= j < |games| ==> !Before(games, j, k)
    ensures CountBefore(games, k, n) == 0
  {
    if n > 0 {
      NoneBefore(games, k, n - 1);
    }
  }

  /** A game from a line's hand and bet: `getType(hand, jokers)`. */
  function MakeGame(hand: string, bet: int, jokers: bool): Game
  {
    Game(hand, TypeOf(hand, jokers), bet)
  }

  function Games(hands: seq<string>, bets: seq<int>, jokers: bool): (r: seq<Game>)
    requires |hands| == |bets|
    ensures |r| == |hands| && forall k :: 0 <= k < |hands| ==> r[k] == MakeGame(hands[k], bets[k], jokers)
  {
    seq(|hands|, k requires 0 <= k < |hands| => MakeGame(hands[k], bets[k], jokers))
  }

  function Part1(hands: seq<string>, bets: seq<int>): int
    requires |hands| == |bets| && forall k :: 0 <= k < |hands| ==> |hands[k]| == 5
  {
    Winnings(Games(hands, bets, false))
  }

  function Part2(hands: seq<string>, bets: seq<int>): int
    requires |hands| == |bets| && forall k :: 0 <= k < |hands| ==> |hands[k]| == 5
  {
    Winnings(Games(hands, bets, true))
  }

  /** Part 2 with the evidently intended joker count. */
  function Part2Corrected(hands: seq<string>, bets: seq<int>): int
    requires |hands| == |bets| && forall k :: 0 <= k < |hands| ==> |hands[k]| == 5
  {
    var games := seq(|hands|, k requires 0 <= k < |hands| => Game(hands[k], CorrectedTypeOf(hands[k], true), bets[k]));
    Winnings(games)
  }
}
