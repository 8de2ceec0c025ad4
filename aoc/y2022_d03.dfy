/** 2022 day 3: rucksacks. Each line is a pack of items (letters); the
    first half of the line is one compartment and the rest the other. A
    JavaScript `Set` keeps its items in first-insertion order, so sets of
    items are modelled as duplicate-free strings in that order. */
module Day2022_03 {
  import opened Common

  datatype Pack = Pack(left: string, right: string, all: string)

  ghost predicate Distinct(s: string)
  {
    forall i, j :: 0 <= i < j < |s| ==> s[i] != s[j]
  }

  /** `new Set(items)`: the items, each once, in order of first occurrence. */
  function ToSet(items: string): (r: string)
    ensures Distinct(r)
    ensures forall c :: c in r <==> c in items
  {
    if items == [] then []
    else
      var prefix := ToSet(items[..|items| - 1]);
      assert forall c :: c in items <==> c in items[..|items| - 1] || c == items[|items| - 1] by {
        assert items == items[..|items| - 1] + [items[|items| - 1]];
      }
      if items[|items| - 1] in prefix then prefix else prefix + [items[|items| - 1]]
  }

  /** A pack line split at half its length (`slice` truncates `total / 2`). */
  function MakePack(line: string): (p: Pack)
    ensures forall c :: c in p.all <==> c in p.left || c in p.right
    ensures forall c :: c in p.left ==> c in line[..|line| / 2]
    ensures forall c :: c in p.right ==> c in line[|line| / 2..]
  {
    var half := |line| / 2;
    assert line == line[..half] + line[half..];
    Pack(ToSet(line[..half]), ToSet(line[half..]), ToSet(line))
  }

  /** The items of `a` that are also in `b`, in the order of `a`. */
  function Intersection(a: string, b: string): (r: string)
    ensures forall c :: c in r <==> c in a && c in b
    ensures Distinct(a) ==> Distinct(r)
    ensures |r| <= |a|
  {
    if a == [] then []
    else
      var rest := Intersection(a[1..], b);
      assert forall c :: c in a <==> c == a[0] || c in a[1..] by {
        assert a == [a[0]] + a[1..];
      }
      if a[0] in b then [a[0]] + rest else rest
  }

  /** The priority of an item, from its character code. */
  function GetPriority(item: char): int
  {
    if (item as int) < 97 then item as int - 64 + 26 else item as int - 96
  }

  /** Lower-case items have priorities 1 to 26 and upper-case 27 to 52, so
      distinct letters have distinct priorities. */
  lemma PriorityOfLetters(c: char, d: char)
    ensures 'a' <= c <= 'z' ==> GetPriority(c) == c as int - 'a' as int + 1 && 1 <= GetPriority(c) <= 26
    ensures 'A' <= c <= 'Z' ==> GetPriority(c) == c as int - 'A' as int + 27 && 27 <= GetPriority(c) <= 52
    ensures ('a' <= c <= 'z' || 'A' <= c <= 'Z') && ('a' <= d <= 'z' || 'A' <= d <= 'Z') && c != d ==>
      GetPriority(c) != GetPriority(d)
  {
  }

  /** The first item in both compartments; an absent one makes
      `getPriority(undefined)` throw. */
  function Duplicate(p: Pack): (r: Option<char>)
    ensures r.Some? ==> r.value in p.left && r.value in p.right
    ensures r.None? <==> forall c :: c in p.left ==> c !in p.right
  {
    var both := Intersection(p.left, p.right);
    if both == [] then None else Some(both[0])
  }

  function Part1(packs: seq<Pack>): (r: Result<int>)
    ensures r.Success? <==> forall i :: 0 <= i < |packs| ==> Duplicate(packs[i]).Some?
  {
    if packs == [] then Success(0)
    else
      var last := packs[|packs| - 1];
      match Part1(packs[..|packs| - 1])
      case Failure(m) => Failure(m)
      case Success(total) =>
        match Duplicate(last)
        case None => Failure("Cannot read properties of undefined")
        case Some(item) =>
          Success(total + GetPriority(item))
  }

  /** The first item common to all three packs of a group (the badge). */
  function Badge(g0: Pack, g1: Pack, g2: Pack): (r: Option<char>)
    ensures r.Some? ==> r.value in g0.all && r.value in g1.all && r.value in g2.all
    ensures r.None? <==> forall c :: c in g0.all && c in g1.all ==> c !in g2.all
  {
    var common := Intersection(Intersection(g0.all, g1.all), g2.all);
    if common == [] then None else Some(common[0])
  }

  /** The packs split into consecutive groups of three, each with a badge. */
  ghost predicate GroupsHaveBadges(packs: seq<Pack>)
    decreases |packs|
  {
    packs == [] || (|packs| >= 3 && Badge(packs[0], packs[1], packs[2]).Some? && GroupsHaveBadges(packs[3..]))
  }

  lemma {:induction false} GroupsAreWhole(packs: seq<Pack>)
    requires GroupsHaveBadges(packs)
    ensures |packs| % 3 == 0
    decreases |packs|
  {
    if packs != [] {
      GroupsAreWhole(packs[3..]);
    }
  }

  /** Second answer: lodash `chunk(packs, 3)`; a short last group or a group
      without a badge throws. */
  function Part2(packs: seq<Pack>): (r: Result<int>)
    ensures r.Success? <==> GroupsHaveBadges(packs)
    decreases |packs|
  {
    if packs == [] then Success(0)
    else if |packs| < 3 then Failure("Cannot read properties of undefined")
    else
      match Badge(packs[0], packs[1], packs[2])
      case None => Failure("Cannot read properties of undefined")
      case Some(item) =>
        match Part2(packs[3..])
        case Failure(m) => Failure(m)
        case Success(rest) => Success(GetPriority(item) + rest)
  }

  /** A successful second answer needs a number of packs divisible by three. */
  lemma Part2NeedsWholeGroups(packs: seq<Pack>)
    requires Part2(packs).Success?
    ensures |packs| % 3 == 0
  {
    GroupsAreWhole(packs);
  }
}
