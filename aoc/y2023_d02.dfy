/** 2023 day 2: games of coloured cubes drawn from a bag. A game is a list
    of grabs, each giving a count for some of the colours. Part 1 sums the
    ids of the games possible with 12 red, 13 green and 14 blue cubes; part
    2 sums, over the games, the product of the largest count seen of each
    colour. */
module Day2023_02 {
  import opened Common

  datatype Color = Red | Green | Blue

  /** `colors`, in their declared order. */
  const Colors: seq<Color> := [Red, Green, Blue]

  lemma AllColors()
    ensures forall c :: c in Colors
  {
    forall c
      ensures c in Colors
    {
      match c
      case Red => assert Colors[0] == c;
      case Green => assert Colors[1] == c;
      case Blue => assert Colors[2] == c;
    }
  }

  /** A grab gives counts for the colours it names; the others are absent. */
  type Grab = map<Color, int>

  datatype Game = Game(id: int, grabs: seq<Grab>)

  /** The bag of part 1. */
  function Limit(c: Color): int
  {
    match c
    case Red => 12
    case Green => 13
    case Blue => 14
  }

  /** `found && (!colorLimit || colorLimit < found)`: an absent colour or a
    * count of 0 is never checked, and every limit is non-zero. */
  predicate Exceeds(grab: Grab, c: Color)
  {
    c in grab && grab[c] != 0 && Limit(c) < grab[c]
  }

  /** A game is possible when no grab exceeds the bag in any colour. */
  predicate Possible(game: Game)
  {
    forall c, i :: 0 <= i < |game.grabs| ==> !Exceeds(game.grabs[i], c)
  }

  /** The filter of part 1: the colours in order, and for each the grabs, and
    * false as soon as one exceeds the bag. */
  method IsPossible(game: Game) returns (b: bool)
    ensures b <==> Possible(game)
  {
    for ci := 0 to |Colors|
      invariant forall c, i :: c in Colors[..ci] && 0 <= i < |game.grabs| ==> !Exceeds(game.grabs[i], c)
    {
      var color := Colors[ci];
      var colorLimit := Limit(color);
      for i := 0 to |game.grabs|
        invariant forall j :: 0 <= j < i ==> !Exceeds(game.grabs[j], color)
      {
        var grab := game.grabs[i];
        if color in grab && grab[color] != 0 && (colorLimit == 0 || colorLimit < grab[color]) {
          assert Exceeds(game.grabs[i], color);
          return false;
        }
      }
      assert Colors[..ci + 1] == Colors[..ci] + [color];
    }
    AllColors();
    assert Colors[..|Colors|] == Colors;
    forall c, i | 0 <= i < |game.grabs|
      ensures !Exceeds(game.grabs[i], c)
    {
      assert c in Colors[..|Colors|];
    }
    return true;
  }

  /** The ids of the possible games, in order. */
  function PossibleIds(games: seq<Game>): (r: seq<int>)
    ensures |r| <= |games|
  {
    if games == [] then []
    else
      var init := PossibleIds(games[..|games| - 1]);
      var last := games[|games| - 1];
      if Possible(last) then init + [last.id] else init
  }

  /** The filter keeps the id of every possible game and of no other. */
  lemma {:induction false} PossibleIdsAre(games: seq<Game>)
    ensures forall k :: 0 <= k < |games| && Possible(games[k]) ==> games[k].id in PossibleIds(games)
    ensures forall id :: id in PossibleIds(games) ==>
      exists k :: 0 <= k < |games| && Possible(games[k]) && games[k].id == id
  {
    if games != [] {
      var init := games[..|games| - 1];
      PossibleIdsAre(init);
      assert forall k :: 0 <= k < |init| ==> init[k] == games[k];
    }
  }

  /** Part 1: the sum of the ids of the possible games. */
  method Part1(games: seq<Game>) returns (result: int)
    ensures result == Sum(PossibleIds(games))
  {
    var ids: seq<int> := [];
    for k := 0 to |games|
      invariant ids == PossibleIds(games[..k])
    {
      assert games[..k + 1][..k] == games[..k];
      var ok := IsPossible(games[k]);
      if ok {
        ids := ids + [games[k].id];
      }
    }
    assert games[..|games|] == games;
    result := Sum(ids);
  }

  /** The largest count of `c` over the grabs, starting at 0. */
  function MaxCount(grabs: seq<Grab>, c: Color): (m: int)
    ensures m >= 0
  {
    if grabs == [] then 0 else Raised(MaxCount(grabs[..|grabs| - 1], c), grabs[|grabs| - 1], c)
  }

  /** The largest count is at least every count of the colour, and is 0 or
    * one of them. */
  lemma {:induction false} MaxCountIs(grabs: seq<Grab>, c: Color)
    ensures forall i :: 0 <= i < |grabs| && c in grabs[i] ==> grabs[i][c] <= MaxCount(grabs, c)
    ensures MaxCount(grabs, c) == 0
      || exists i :: 0 <= i < |grabs| && c in grabs[i] && grabs[i][c] == MaxCount(grabs, c)
  {
    if grabs != [] {
      var init := grabs[..|grabs| - 1];
      MaxCountIs(init, c);
      assert forall i :: 0 <= i < |init| ==> init[i] == grabs[i];
    }
  }

  /** `Math.max(count, limit[color])` for a colour the grab names. */
  function Raised(m: int, grab: Grab, c: Color): (r: int)
    ensures r >= m
    ensures c in grab ==> r >= grab[c]
    ensures r == m || (c in grab && r == grab[c])
  {
    if c in grab && grab[c] > m then grab[c] else m
  }

  /** The power of a game: the product of its three largest counts. */
  function Power(game: Game): int
  {
    MaxCount(game.grabs, Blue) * MaxCount(game.grabs, Green) * MaxCount(game.grabs, Red)
  }

  /** A game is possible exactly when its largest count of each colour fits
    * the bag: the fewest cubes of part 2 decide part 1. */
  lemma PossibleWithin(game: Game)
    ensures Possible(game) <==> forall c :: MaxCount(game.grabs, c) <= Limit(c)
  {
    forall c {
      MaxCountIs(game.grabs, c);
    }
    if forall c :: MaxCount(game.grabs, c) <= Limit(c) {
      forall c, i | 0 <= i < |game.grabs|
        ensures !Exceeds(game.grabs[i], c)
      {
        assert MaxCount(game.grabs, c) <= Limit(c);
      }
    }
    if Possible(game) {
      forall c
        ensures MaxCount(game.grabs, c) <= Limit(c)
      {
        var m := MaxCount(game.grabs, c);
        if m != 0 {
          var i :| 0 <= i < |game.grabs| && c in game.grabs[i] && game.grabs[i][c] == m;
          assert !Exceeds(game.grabs[i], c);
        }
      }
    }
  }

  /** The loop of part 2: the largest count so far of each colour, starting
    * at 0, raised by every count of every grab. */
  method GamePower(game: Game) returns (power: int)
    ensures power == Power(game)
  {
    var limit: map<Color, int> := map[Red := 0, Green := 0, Blue := 0];
    assert forall c :: c in limit by {
      forall c
        ensures c in limit
      {
        match c
        case Red =>
        case Green =>
        case Blue =>
      }
    }
    for i := 0 to |game.grabs|
      invariant forall c :: c in limit && limit[c] == MaxCount(game.grabs[..i], c)
    {
      assert game.grabs[..i + 1][..i] == game.grabs[..i];
      limit := RaiseAll(limit, game.grabs[i]);
      assert forall c :: limit[c] == MaxCount(game.grabs[..i + 1], c);
    }
    assert game.grabs[..|game.grabs|] == game.grabs;
    power := limit[Blue] * limit[Green] * limit[Red];
  }

  /** The inner loop of part 2: each colour the grab names raises its
    * largest count. */
  method RaiseAll(limit: map<Color, int>, grab: Grab) returns (raised: map<Color, int>)
    requires forall c :: c in limit
    ensures forall c :: c in raised && raised[c] == Raised(limit[c], grab, c)
  {
    raised := limit;
    for ci := 0 to |Colors|
      invariant forall c :: c in raised
      invariant forall c :: c in Colors[..ci] ==> raised[c] == Raised(limit[c], grab, c)
      invariant forall c :: c !in Colors[..ci] ==> raised[c] == limit[c]
    {
      var color := Colors[ci];
      if color in grab {
        raised := raised[color := if grab[color] > raised[color] then grab[color] else raised[color]];
      }
      assert Colors[..ci + 1] == Colors[..ci] + [color];
      assert forall c :: c in Colors[..ci] ==> c != color by {
        assert Colors[0] != Colors[1] && Colors[0] != Colors[2] && Colors[1] != Colors[2];
      }
    }
    AllColors();
    assert Colors[..|Colors|] == Colors;
  }

  /** The power of each game. */
  function Powers(games: seq<Game>): (r: seq<int>)
    ensures |r| == |games|
    ensures forall k :: 0 <= k < |games| ==> r[k] == Power(games[k])
  {
    seq(|games|, k requires 0 <= k < |games| => Power(games[k]))
  }

  /** Part 2: the sum of the games' powers. */
  method Part2(games: seq<Game>) returns (result: int)
    ensures result == Sum(Powers(games))
  {
    var powers: seq<int> := [];
    for k := 0 to |games|
      invariant powers == Powers(games[..k])
    {
      var p := GamePower(games[k]);
      powers := powers + [p];
    }
    assert games[..|games|] == games;
    result := Sum(powers);
  }

  /** Every power is a product of non-negative maxima. */
  lemma PowerNonNegative(game: Game)
    ensures Power(game) >= 0
  {
    var b, g, r := MaxCount(game.grabs, Blue), MaxCount(game.grabs, Green), MaxCount(game.grabs, Red);
    MulNonNeg(b, g);
    MulNonNeg(b * g, r);
  }
}
