/** 2022 day 13: packets are integers and nested lists. `parseData` reads
    one line with an explicit stack of open lists; `compare` orders two
    packets, 1 meaning "in the right order", -1 the reverse. */
module Day2022_13 {
  import opened Common

  datatype Packet = Int(n: int) | List(items: seq<Packet>)

  /** The number of nodes of a packet, for termination. */
  function Size(p: Packet): (r: nat)
    ensures r >= 1
    decreases p
  {
    match p
    case Int(_) => 1
    case List(items) => 1 + SizeSeq(items)
  }

  function SizeSeq(s: seq<Packet>): nat
    decreases s
  {
    if s == [] then 0 else Size(s[0]) + SizeSeq(s[1..])
  }

  // ----- parsing -----
  // The source walks one line with a cursor `pos`; the model reads the
  // rest of the line from the cursor on, `data[pos..]`, so that printing a
  // packet and then parsing it can be stated on concatenated strings.

  /** The length of an integer token: up to the nearer of the next ',' and
      the next ']', or to the end of the line when there is neither. */
  function TokenEnd(s: string): (next: nat)
    ensures next <= |s|
    ensures s != [] && s[0] != ',' && s[0] != ']' ==> next > 0
  {
    var nextComma := IndexOf(s, ',');
    var nextArrayEnd := IndexOf(s, ']');
    if nextComma != -1 then
      if nextArrayEnd != -1 then
        if nextComma < nextArrayEnd then nextComma else nextArrayEnd
      else nextComma
    else if nextArrayEnd != -1 then nextArrayEnd
    else |s|
  }

  /** An integer token runs up to the first ',' or ']' after it. */
  lemma TokenEndMeaning(s: string)
    ensures forall k :: 0 <= k < TokenEnd(s) ==> s[k] != ',' && s[k] != ']'
    ensures TokenEnd(s) < |s| ==> s[TokenEnd(s)] == ',' || s[TokenEnd(s)] == ']'
  {
    IndexOfMeaning(s, ',');
    IndexOfMeaning(s, ']');
  }

  /** Push `p` onto the innermost open list. */
  function AppendTop(stack: seq<seq<Packet>>, p: Packet): seq<seq<Packet>>
    requires stack != []
  {
    stack[..|stack| - 1] + [stack[|stack| - 1] + [p]]
  }

  /** Close the innermost open list: it becomes the last item of the list
      around it. (The source pushes the new list into its parent when it
      opens it and keeps filling it through the stack; as nothing else is
      pushed into the parent meanwhile, both give the same packet.) */
  function Close(stack: seq<seq<Packet>>): seq<seq<Packet>>
    requires |stack| >= 2
  {
    stack[..|stack| - 2] + [stack[|stack| - 2] + [List(stack[|stack| - 1])]]
  }

  /** The parse of the rest `s` of a line with open lists `stack`. The last
      character of the line is never read: it is taken to be the outermost
      closing bracket. Closing the outermost list empties the stack, after
      which every path of the source fails an assertion, so it fails at
      once here. */
  function Go(s: string, stack: seq<seq<Packet>>): Result<Packet>
    requires stack != []
    decreases |s|
  {
    if |s| <= 1 then
      if |stack| == 1 then Success(List(stack[0])) else Failure("open lists remain")
    else if s[0] == '[' then Go(s[1..], stack + [[]])
    else if s[0] == ']' then
      if |stack| == 1 then Failure("outermost list closed") else Go(s[1..], Close(stack))
    else if s[0] == ',' then Go(s[1..], stack)
    else
      var next := TokenEnd(s);
      match ParseInt(s[..next])
      case None => Failure("not a number")
      case Some(v) => Go(s[next..], AppendTop(stack, Int(v)))
  }

  /** The line after its first character, which is taken to be the
      outermost opening bracket. */
  function Body(data: string): string
  {
    if data == [] then [] else data[1..]
  }

  /** `parseData`: the cursor loop over one line, from position 1. */
  method ParseData(data: string) returns (r: Result<Packet>)
    ensures r == Go(Body(data), [[]])
  {
    var stack: seq<seq<Packet>> := [[]];
    var pos: nat := 1;
    while pos < |data| - 1
      invariant stack != []
      invariant data == [] ==> stack == [[]]
      invariant data != [] ==> pos <= |data| && Go(data[pos..], stack) == Go(Body(data), [[]])
      decreases |data| - pos
    {
      var failed;
      failed, pos, stack := ParseStep(data, pos, stack);
      if failed.Some? {
        return Failure(failed.value);
      }
    }
    if |stack| != 1 {
      return Failure("open lists remain");
    }
    return Success(List(stack[0]));
  }

  /** One pass of the loop of `parseData` at `pos`: an opening bracket, a
      closing bracket, a comma or an integer token. */
  method ParseStep(data: string, pos: nat, stack: seq<seq<Packet>>)
    returns (failed: Option<string>, next: nat, stack': seq<seq<Packet>>)
    requires stack != [] && pos < |data| - 1
    ensures failed.Some? ==> Go(data[pos..], stack) == Failure(failed.value)
    ensures failed.None? ==> pos < next <= |data| && stack' != [] && Go(data[next..], stack') == Go(data[pos..], stack)
  {
    assert data[pos..][1..] == data[pos + 1..];
    failed, next, stack' := None, pos + 1, stack;
    if data[pos] == '[' {
      stack' := stack + [[]];
    } else if data[pos] == ']' {
      if |stack| == 1 {
        failed := Some("outermost list closed");
      } else {
        stack' := Close(stack);
      }
    } else if data[pos] == ',' {
    } else {
      next := pos + TokenEnd(data[pos..]);
      assert data[pos..][..next - pos] == data[pos..next];
      assert data[pos..][next - pos..] == data[next..];
      var value := ParseInt(data[pos..next]);
      if value.None? {
        failed := Some("not a number");
      } else {
        stack' := AppendTop(stack, Int(value.value));
      }
    }
  }

  // ----- printing, the parser's inverse -----

  function ShowInt(n: int): string
  {
    if n >= 0 then ShowNat(n) else "-" + ShowNat(-n)
  }

  /** A packet written the way the puzzle input writes it. */
  function Show(p: Packet): string
    decreases p
  {
    match p
    case Int(n) => ShowInt(n)
    case List(items) => "[" + ShowItems(items) + "]"
  }

  function ShowItems(items: seq<Packet>): string
    decreases items
  {
    if items == [] then ""
    else if |items| == 1 then Show(items[0])
    else Show(items[0]) + "," + ShowItems(items[1..])
  }

  lemma ParseShowInt(n: int)
    ensures ParseInt(ShowInt(n)) == Some(n)
    ensures forall k :: 0 <= k < |ShowInt(n)| ==> ShowInt(n)[k] != ',' && ShowInt(n)[k] != ']' && ShowInt(n)[k] != '['
    ensures ShowInt(n) != []
  {
    if n >= 0 {
      ParseShow(n);
    } else {
      ParseShowNegative(-n);
    }
  }

  /** A written integer followed by a delimiter is read as one token. */
  lemma GoInt(n: int, rest: string, stack: seq<seq<Packet>>)
    requires stack != [] && rest != [] && (rest[0] == ',' || rest[0] == ']')
    ensures Go(ShowInt(n) + rest, stack) == Go(rest, AppendTop(stack, Int(n)))
  {
    var w := ShowInt(n);
    var s := w + rest;
    ParseShowInt(n);
    TokenEndMeaning(s);
    assert s[0] == w[0];
    assert s[|w|] == rest[0];
    var next := TokenEnd(s);
    assert next == |w|;
    assert s[..next] == w && s[next..] == rest;
  }

  /** Reading a written packet followed by a delimiter pushes it onto the
      innermost open list. */
  lemma {:induction false} ShowParses(p: Packet, rest: string, stack: seq<seq<Packet>>)
    requires stack != [] && rest != [] && (rest[0] == ',' || rest[0] == ']')
    ensures Go(Show(p) + rest, stack) == Go(rest, AppendTop(stack, p))
    decreases Size(p), 0
  {
    match p
    case Int(n) =>
      GoInt(n, rest, stack);
    case List(items) =>
      var inner := ShowItems(items);
      var close := "]" + rest;
      assert Show(p) + rest == "[" + (inner + close);
      assert ("[" + (inner + close))[1..] == inner + close;
      ItemsParse(items, close, stack + [[]]);
      assert close[1..] == rest;
      OpenExtendClose(stack, items);
  }

  /** Opening a list, filling it with `items` and closing it pushes the
      list of `items`. */
  lemma OpenExtendClose(stack: seq<seq<Packet>>, items: seq<Packet>)
    requires stack != []
    ensures |Extend(stack + [[]], items)| >= 2
    ensures Close(Extend(stack + [[]], items)) == AppendTop(stack, List(items))
  {
    var stack' := Extend(stack + [[]], items);
    assert stack' == stack + [items] by {
      assert (stack + [[]])[..|stack|] == stack;
      assert [] + items == items;
    }
    assert stack'[..|stack'| - 2] == stack[..|stack| - 1];
  }

  /** Push all of `items` onto the innermost open list. */
  function Extend(stack: seq<seq<Packet>>, items: seq<Packet>): seq<seq<Packet>>
    requires stack != []
  {
    stack[..|stack| - 1] + [stack[|stack| - 1] + items]
  }

  lemma AppendTopThenRest(stack: seq<seq<Packet>>, items: seq<Packet>)
    requires stack != [] && items != []
    ensures Extend(AppendTop(stack, items[0]), items[1..]) == Extend(stack, items)
  {
    var stack1 := AppendTop(stack, items[0]);
    assert stack1[|stack1| - 1] + items[1..] == stack[|stack| - 1] + items by {
      assert items == [items[0]] + items[1..];
    }
  }

  /** Reading written items separated by commas, followed by a closing
      bracket, appends them in order to the innermost open list. */
  lemma {:induction false} ItemsParse(items: seq<Packet>, rest: string, stack: seq<seq<Packet>>)
    requires stack != [] && rest != [] && rest[0] == ']'
    ensures Go(ShowItems(items) + rest, stack) == Go(rest, Extend(stack, items))
    decreases SizeSeq(items), 1
  {
    var top := stack[|stack| - 1];
    if items == [] {
      assert ShowItems(items) + rest == rest;
      assert top + items == top;
      assert Extend(stack, items) == stack;
    } else if |items| == 1 {
      assert ShowItems(items) == Show(items[0]);
      assert SizeSeq(items) == Size(items[0]) by {
        assert items[1..] == [];
      }
      ShowParses(items[0], rest, stack);
      assert items == [items[0]];
    } else {
      var more := items[1..];
      var tail := ShowItems(more) + rest;
      var comma := "," + tail;
      assert ShowItems(items) + rest == Show(items[0]) + comma;
      assert SizeSeq(more) >= Size(more[0]) >= 1;
      ShowParses(items[0], comma, stack);
      var stack1 := AppendTop(stack, items[0]);
      assert Go(comma, stack1) == Go(tail, stack1) by {
        assert comma[1..] == tail;
      }
      ItemsParse(more, rest, stack1);
      AppendTopThenRest(stack, items);
    }
  }

  /** Parsing a written packet list gives it back. */
  lemma ParseRoundTrip(items: seq<Packet>)
    ensures Go(Body(Show(List(items))), [[]]) == Success(List(items))
  {
    var d := Show(List(items));
    var inner := ShowItems(items);
    assert Body(d) == inner + "]";
    ItemsParse(items, "]", [[]]);
    var st: seq<seq<Packet>> := [[]];
    assert Extend(st, items) == [items] by {
      assert st[..|st| - 1] == [];
      assert st[|st| - 1] + items == items;
    }
  }

  // ----- comparing -----

  /** `compare`: 1 when `left` comes first, -1 when `right` does, 0 when
      neither decides. An integer met by a list is wrapped as a one-item
      list. */
  function Compare(left: Packet, right: Packet): (r: int)
    ensures -1 <= r <= 1
    decreases Size(left) + Size(right), 0
  {
    match (left, right)
    case (List(a), List(b)) => CompareLists(a, b)
    case (List(a), Int(_)) =>
      assert SizeSeq([right]) == Size(right) by { assert [right][1..] == []; }
      CompareLists(a, [right])
    case (Int(_), List(b)) =>
      assert SizeSeq([left]) == Size(left) by { assert [left][1..] == []; }
      CompareLists([left], b)
    case (Int(l), Int(r)) => Sign(r - l)
  }

  /** The element-wise loop of `compare` on two lists: the first deciding
      pair decides; the list that runs out first comes first. */
  function CompareLists(a: seq<Packet>, b: seq<Packet>): (r: int)
    ensures -1 <= r <= 1
    decreases SizeSeq(a) + SizeSeq(b), 1
  {
    if a == [] && b == [] then 0
    else if a == [] then 1
    else if b == [] then -1
    else
      var sub := Compare(a[0], b[0]);
      if sub != 0 then sub else CompareLists(a[1..], b[1..])
  }

  /** A packet is never ordered against itself. */
  lemma {:induction false} CompareReflexive(p: Packet)
    ensures Compare(p, p) == 0
    decreases Size(p), 0
  {
    if p.List? {
      CompareListsReflexive(p.items);
    }
  }

  lemma {:induction false} CompareListsReflexive(a: seq<Packet>)
    ensures CompareLists(a, a) == 0
    decreases SizeSeq(a), 1
  {
    if a != [] {
      CompareReflexive(a[0]);
      CompareListsReflexive(a[1..]);
    }
  }

  /** Swapping the packets flips the answer, as the sort needs. */
  lemma {:induction false} CompareAntisymmetric(p: Packet, q: Packet)
    ensures Compare(p, q) == -Compare(q, p)
    decreases Size(p) + Size(q), 0
  {
    match (p, q)
    case (List(a), List(b)) => CompareListsAntisymmetric(a, b);
    case (List(a), Int(_)) =>
      assert SizeSeq([q]) == Size(q) by { assert [q][1..] == []; }
      CompareListsAntisymmetric(a, [q]);
    case (Int(_), List(b)) =>
      assert SizeSeq([p]) == Size(p) by { assert [p][1..] == []; }
      CompareListsAntisymmetric([p], b);
    case (Int(_), Int(_)) =>
  }

  lemma {:induction false} CompareListsAntisymmetric(a: seq<Packet>, b: seq<Packet>)
    ensures CompareLists(a, b) == -CompareLists(b, a)
    decreases SizeSeq(a) + SizeSeq(b), 1
  {
    if a != [] && b != [] {
      CompareAntisymmetric(a[0], b[0]);
      CompareListsAntisymmetric(a[1..], b[1..]);
    }
  }

  /** An integer compares as the list holding only it. */
  function Lift(p: Packet): (r: seq<Packet>)
    ensures SizeSeq(r) <= Size(p) && (p.List? ==> SizeSeq(r) < Size(p))
  {
    match p
    case List(items) => items
    case Int(_) =>
      assert SizeSeq([p]) == Size(p) by { assert [p][1..] == []; }
      [p]
  }

  lemma CompareLift(p: Packet, q: Packet)
    ensures Compare(p, q) == CompareLists(Lift(p), Lift(q))
  {
    if p.Int? && q.Int? {
      assert [p][1..] == [] && [q][1..] == [];
    }
  }

  /** `compare` is a total preorder, so sorting by it is well defined: "not
      after" is transitive, and a chain is a tie only when both steps are. */
  lemma {:induction false} CompareTransitive(p: Packet, q: Packet, r: Packet)
    requires Compare(p, q) >= 0 && Compare(q, r) >= 0
    ensures Compare(p, r) >= 0
    ensures Compare(p, r) == 0 ==> Compare(p, q) == 0 && Compare(q, r) == 0
    decreases Size(p) + Size(q) + Size(r), 0
  {
    if !(p.Int? && q.Int? && r.Int?) {
      CompareLift(p, q);
      CompareLift(q, r);
      CompareLift(p, r);
      CompareListsTransitive(Lift(p), Lift(q), Lift(r));
    }
  }

  lemma {:induction false} CompareListsTransitive(a: seq<Packet>, b: seq<Packet>, c: seq<Packet>)
    requires CompareLists(a, b) >= 0 && CompareLists(b, c) >= 0
    ensures CompareLists(a, c) >= 0
    ensures CompareLists(a, c) == 0 ==> CompareLists(a, b) == 0 && CompareLists(b, c) == 0
    decreases SizeSeq(a) + SizeSeq(b) + SizeSeq(c), 1
  {
    if a != [] && b != [] && c != [] {
      var x, y, z := a[0], b[0], c[0];
      CompareTransitive(x, y, z);
      if Compare(x, y) == 0 && Compare(y, z) == 0 {
        CompareAntisymmetric(x, y);
        CompareAntisymmetric(y, z);
        CompareAntisymmetric(x, z);
        CompareTransitive(z, y, x);
        CompareListsTransitive(a[1..], b[1..], c[1..]);
      }
    }
  }

  /** The strict order: a packet before one before a third is before it. */
  lemma RightOrderTransitive(p: Packet, q: Packet, r: Packet)
    requires Compare(p, q) == 1 && Compare(q, r) == 1
    ensures Compare(p, r) == 1
  {
    CompareTransitive(p, q, r);
  }

  // ----- the answers -----

  /** The sum of the 1-based numbers of the pairs in the right order (not
      -1). */
  function RightOrderSum(pairs: seq<(Packet, Packet)>): int
  {
    if pairs == [] then 0
    else
      var n := |pairs| - 1;
      RightOrderSum(pairs[..n]) + if Compare(pairs[n].0, pairs[n].1) != -1 then n + 1 else 0
  }

  /** `part1`: collect the indices of the ordered pairs, then add their sum
      and their count. */
  method Part1(pairs: seq<(Packet, Packet)>) returns (total: int)
    ensures total == RightOrderSum(pairs)
  {
    var orderedIndices: seq<int> := [];
    var idx := 0;
    while idx < |pairs|
      invariant 0 <= idx <= |pairs|
      invariant Sum(orderedIndices) + |orderedIndices| == RightOrderSum(pairs[..idx])
    {
      assert pairs[..idx + 1][..idx] == pairs[..idx];
      var res := Compare(pairs[idx].0, pairs[idx].1);
      if res != -1 {
        SumAppend(orderedIndices, [idx]);
        orderedIndices := orderedIndices + [idx];
      }
      idx := idx + 1;
    }
    assert pairs[..idx] == pairs;
    total := Sum(orderedIndices) + |orderedIndices|;
  }

  /** Each pair adds at most its own number, so the answer lies between 0
      and 1 + 2 + ... + n. */
  lemma {:induction false} RightOrderSumBounds(pairs: seq<(Packet, Packet)>)
    ensures 0 <= RightOrderSum(pairs) <= |pairs| * (|pairs| + 1) / 2
  {
    if pairs != [] {
      RightOrderSumBounds(pairs[..|pairs| - 1]);
    }
  }

  /** The pairs whose packets are the same all count. */
  lemma {:induction false} EqualPairsCount(pairs: seq<(Packet, Packet)>)
    requires forall i :: 0 <= i < |pairs| ==> pairs[i].0 == pairs[i].1
    ensures RightOrderSum(pairs) == |pairs| * (|pairs| + 1) / 2
  {
    if pairs != [] {
      var n := |pairs| - 1;
      EqualPairsCount(pairs[..n]);
      CompareReflexive(pairs[n].0);
    }
  }

  const Divider2: Packet := List([List([Int(2)])])
  const Divider6: Packet := List([List([Int(6)])])

  /** The dividers first, then both packets of every pair. */
  function AllPackets(pairs: seq<(Packet, Packet)>): (all: seq<Packet>)
    ensures |all| == 2 + 2 * |pairs|
    ensures all[0] == Divider2 && all[1] == Divider6
  {
    if pairs == [] then [Divider2, Divider6]
    else AllPackets(pairs[..|pairs| - 1]) + [pairs[|pairs| - 1].0, pairs[|pairs| - 1].1]
  }

  /** How many packets of `all` come before `all[k]` once sorted with
      `compare` and reversed: those ordered before it, and, as the sort is
      stable and then reversed, the later ones it does not order. */
  function AheadOf(all: seq<Packet>, k: nat, j: nat): (r: nat)
    requires k < |all| && j <= |all|
    ensures r <= j
  {
    if j == 0 then 0
    else
      var c := Compare(all[j - 1], all[k]);
      AheadOf(all, k, j - 1) + if c == 1 || (c == 0 && j - 1 > k) then 1 else 0
  }

  /** `part2`: the product of the dividers' 1-based positions. */
  function Part2(pairs: seq<(Packet, Packet)>): int
  {
    var all := AllPackets(pairs);
    (AheadOf(all, 0, |all|) + 1) * (AheadOf(all, 1, |all|) + 1)
  }

  /** [[2]] is ordered before [[6]] and never ahead of itself, so [[6]] is at
      least second, and neither divider is past the end. */
  lemma DividerPositions(pairs: seq<(Packet, Packet)>)
    ensures var all := AllPackets(pairs);
      && 1 <= AheadOf(all, 1, |all|) + 1 <= |all|
      && 1 <= AheadOf(all, 0, |all|) + 1 <= |all|
      && Part2(pairs) >= 2
  {
    var all := AllPackets(pairs);
    DividersOrdered();
    AheadOfSkipsSelf(all, 0, |all|);
    AheadOfSkipsSelf(all, 1, |all|);
    AheadOfCounts(all, 1, 0, |all|);
    ProductAtLeastTwo(AheadOf(all, 0, |all|) + 1, AheadOf(all, 1, |all|) + 1);
  }

  lemma ProductAtLeastTwo(a: int, b: int)
    requires a >= 1 && b >= 2
    ensures a * b >= 2
  {
    assert a * b == (a - 1) * b + b;
    assert (a - 1) * b >= 0;
  }

  lemma DividersOrdered()
    ensures Compare(Divider2, Divider6) == 1
  {
    var two := List([Int(2)]);
    var six := List([Int(6)]);
    assert Compare(Int(2), Int(6)) == 1;
    assert CompareLists([Int(2)], [Int(6)]) == 1;
    assert Compare(two, six) == 1;
    assert CompareLists([two], [six]) == 1;
  }

  /** A packet is never counted ahead of itself. */
  lemma {:induction false} AheadOfSkipsSelf(all: seq<Packet>, k: nat, j: nat)
    requires k < |all| && j <= |all|
    ensures AheadOf(all, k, j) <= if j > k then j - 1 else j
  {
    if j > 0 {
      AheadOfSkipsSelf(all, k, j - 1);
      if j - 1 == k {
        CompareReflexive(all[k]);
      }
    }
  }

  /** A packet ordered before `all[k]` is counted. */
  lemma {:induction false} AheadOfCounts(all: seq<Packet>, k: nat, i: nat, j: nat)
    requires k < |all| && i < j <= |all|
    requires Compare(all[i], all[k]) == 1
    ensures AheadOf(all, k, j) >= 1
  {
    if j - 1 != i {
      AheadOfCounts(all, k, i, j - 1);
    }
  }
}
