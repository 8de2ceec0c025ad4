/** 2022 day 5: stacks of crates rearranged by a crane. A crate is the
    one-character string drawn for it; `charAt` past the end of a line gives
    the empty string, and an empty stack's `pop()` or last element is
    `undefined`, which `join` prints as nothing — both are modelled as the
    empty crate "". */
module Day2022_05 {
  import opened Common

  type Crate = string
  type Stack = seq<Crate>

  /** A crane instruction: move `count` crates from stack `from` to stack
      `to`, both numbered from 1. */
  datatype Move = Move(from: int, to: int, count: nat)

  /** `String.prototype.charAt`. */
  function CharAt(line: string, k: int): (r: Crate)
    ensures 0 <= k < |line| ==> r == [line[k]]
    ensures !(0 <= k < |line|) ==> r == ""
  {
    if 0 <= k < |line| then [line[k]] else ""
  }

  /** Stack `s` of the drawing: the character at column 4s+1 of each crate
      line, from the bottom line up, blanks skipped. `depth` lines are read. */
  function StackOf(crateLines: seq<string>, s: nat, depth: nat): (r: Stack)
    requires depth <= |crateLines|
    ensures |r| <= depth
    ensures forall k :: 0 <= k < |r| ==> r[k] != " "
    decreases depth
  {
    if depth == 0 then []
    else
      var below := StackOf(crateLines, s, depth - 1);
      var crate := CharAt(crateLines[|crateLines| - depth], 4 * s + 1);
      if crate != " " then below + [crate] else below
  }

  /** In a drawing whose lines all reach column 4s+1, every crate of stack
      `s` is a character drawn at that column, bottom line first. */
  lemma {:induction false} StackOfDrawn(crateLines: seq<string>, s: nat, depth: nat)
    requires depth <= |crateLines|
    requires forall l :: 0 <= l < |crateLines| ==> 4 * s + 1 < |crateLines[l]|
    ensures forall k :: 0 <= k < |StackOf(crateLines, s, depth)| ==>
      |StackOf(crateLines, s, depth)[k]| == 1
      && exists l :: |crateLines| - depth <= l < |crateLines| && StackOf(crateLines, s, depth)[k] == [crateLines[l][4 * s + 1]]
    decreases depth
  {
    if depth > 0 {
      StackOfDrawn(crateLines, s, depth - 1);
      var l := |crateLines| - depth;
      assert CharAt(crateLines[l], 4 * s + 1) == [crateLines[l][4 * s + 1]];
    }
  }

  /** `parseStacks`: as many stacks as numbers on the last line; every other
      line is a row of crates, the top row first. */
  method ParseStacks(stacksRaw: string) returns (stacks: seq<Stack>)
    ensures var lines := Split(stacksRaw, "\n");
      && |stacks| == |NonEmpty(Split(lines[|lines| - 1], " "))|
      && forall s :: 0 <= s < |stacks| ==> stacks[s] == StackOf(lines[..|lines| - 1], s, |lines| - 1)
  {
    var stackLines := Split(stacksRaw, "\n");
    var numberLine := stackLines[|stackLines| - 1];
    var numberOfStacks := |NonEmpty(Split(numberLine, " "))|;
    var stackDepth := |stackLines| - 1;
    ghost var crateLines := stackLines[..stackDepth];
    stacks := [];
    var s := 0;
    while s < numberOfStacks
      invariant 0 <= s <= numberOfStacks
      invariant |stacks| == s
      invariant forall t :: 0 <= t < s ==> stacks[t] == StackOf(crateLines, t, stackDepth)
    {
      var stack := [];
      var d := 0;
      while d < stackDepth
        invariant 0 <= d <= stackDepth
        invariant stack == StackOf(crateLines, s, d)
      {
        assert crateLines[|crateLines| - (d + 1)] == stackLines[stackDepth - d - 1];
        var crate := CharAt(stackLines[stackDepth - d - 1], s * 4 + 1);
        if crate != " " {
          stack := stack + [crate];
        }
        d := d + 1;
      }
      stacks := stacks + [stack];
      s := s + 1;
    }
  }

  /** The last crate of a stack, or the empty crate for an empty stack. */
  function Top(stack: Stack): Crate
  {
    if stack == [] then "" else stack[|stack| - 1]
  }

  /** One `toStack.push(fromStack.pop())`, indices already checked. */
  function Step(stacks: seq<Stack>, f: nat, t: nat): (r: seq<Stack>)
    requires f < |stacks| && t < |stacks|
    ensures |r| == |stacks|
  {
    var from := stacks[f];
    var crate := Top(from);
    var afterPop := stacks[f := if from == [] then [] else from[..|from| - 1]];
    afterPop[t := afterPop[t] + [crate]]
  }

  /** The stacks after `c` single-crate steps. */
  function Steps(stacks: seq<Stack>, f: nat, t: nat, c: nat): (r: seq<Stack>)
    requires f < |stacks| && t < |stacks|
    ensures |r| == |stacks|
  {
    if c == 0 then stacks else Step(Steps(stacks, f, t, c - 1), f, t)
  }

  predicate ValidMove(stacks: seq<Stack>, move: Move)
  {
    1 <= move.from <= |stacks| && 1 <= move.to <= |stacks|
  }

  /** The CrateMover 9000: one crate at a time. A stack number outside the
      list is `undefined`, which throws at the first push; a move of no
      crates never touches its stacks and so succeeds whatever they are.
      After a throw the stacks are left as they are and `ok` is false. */
  method PerformMove9000(stacks: array<Stack>, move: Move) returns (ok: bool)
    modifies stacks
    ensures ok <==> ValidMove(old(stacks[..]), move) || move.count == 0
    ensures ValidMove(old(stacks[..]), move) ==>
      stacks[..] == Steps(old(stacks[..]), move.from - 1, move.to - 1, move.count)
    ensures !ValidMove(old(stacks[..]), move) ==> stacks[..] == old(stacks[..])
  {
    if !(1 <= move.from <= stacks.Length && 1 <= move.to <= stacks.Length) {
      return move.count == 0;
    }
    var f, t := move.from - 1, move.to - 1;
    var c := 0;
    while c < move.count
      invariant 0 <= c <= move.count
      invariant stacks[..] == Steps(old(stacks[..]), f, t, c)
    {
      var fromStack := stacks[f];
      var crate := Top(fromStack);
      stacks[f] := if fromStack == [] then [] else fromStack[..|fromStack| - 1];
      stacks[t] := stacks[t] + [crate];
      c := c + 1;
    }
    return true;
  }

  function Reverse(s: Stack): (r: Stack)
    ensures |r| == |s|
    ensures forall i :: 0 <= i < |s| ==> r[i] == s[|s| - 1 - i]
  {
    if s == [] then [] else [s[|s| - 1]] + Reverse(s[..|s| - 1])
  }

  /** With enough crates on a different source stack, the 9000 moves the
      top `c` crates in reverse order and touches nothing else. */
  lemma {:induction false} StepsMoveReversed(stacks: seq<Stack>, f: nat, t: nat, c: nat)
    requires f < |stacks| && t < |stacks| && f != t && c <= |stacks[f]|
    ensures var r := Steps(stacks, f, t, c);
      && r[f] == stacks[f][..|stacks[f]| - c]
      && r[t] == stacks[t] + Reverse(stacks[f][|stacks[f]| - c..])
      && forall i :: 0 <= i < |stacks| && i != f && i != t ==> r[i] == stacks[i]
  {
    if c > 0 {
      StepsMoveReversed(stacks, f, t, c - 1);
      var n := |stacks[f]|;
      var before := Steps(stacks, f, t, c - 1);
      assert before[f] == stacks[f][..n - (c - 1)];
      var block := stacks[f][n - c..];
      assert Reverse(block) == Reverse(block[1..]) + [block[0]];
      assert block[1..] == stacks[f][n - (c - 1)..];
      assert Top(before[f]) == block[0];
    }
  }

  /** On a single stack holding crates the 9000 puts every crate back
      where it was (an empty one would gain an `undefined`). */
  lemma {:induction false} StepsSameStack(stacks: seq<Stack>, f: nat, c: nat)
    requires f < |stacks| && (c == 0 || stacks[f] != [])
    ensures Steps(stacks, f, f, c) == stacks
  {
    if c > 0 {
      StepsSameStack(stacks, f, c - 1);
      var s := stacks[f];
      if s != [] {
        assert s[..|s| - 1] + [s[|s| - 1]] == s;
      }
    }
  }

  /** `Array.prototype.splice(start, deleteCount)` start index: a negative
      start counts from the end, clamped at 0. */
  function SpliceStart(len: nat, start: int): (k: nat)
    ensures k <= len
  {
    if start < 0 then (if len + start < 0 then 0 else len + start)
    else if start > len then len
    else start
  }

  /** The CrateMover 9001: `splice` the top `count` crates and push them in
      their order. */
  function Move9001(stacks: seq<Stack>, f: nat, t: nat, count: nat): (r: seq<Stack>)
    requires f < |stacks| && t < |stacks|
    ensures |r| == |stacks|
  {
    var from := stacks[f];
    var start := SpliceStart(|from|, |from| - count);
    var end := if start + count > |from| then |from| else start + count;
    var removed := from[start..end];
    var afterSplice := stacks[f := from[..start] + from[end..]];
    afterSplice[t := afterSplice[t] + removed]
  }

  method PerformMove9001(stacks: array<Stack>, move: Move) returns (ok: bool)
    modifies stacks
    ensures ok <==> ValidMove(old(stacks[..]), move)
    ensures ok ==> stacks[..] == Move9001(old(stacks[..]), move.from - 1, move.to - 1, move.count)
    ensures !ok ==> stacks[..] == old(stacks[..])
  {
    if !(1 <= move.from <= stacks.Length && 1 <= move.to <= stacks.Length) {
      return false;
    }
    var f, t := move.from - 1, move.to - 1;
    var from := stacks[f];
    var start := SpliceStart(|from|, |from| - move.count);
    var end := if start + move.count > |from| then |from| else start + move.count;
    var removed := from[start..end];
    stacks[f] := from[..start] + from[end..];
    stacks[t] := stacks[t] + removed;
    return true;
  }

  /** With enough crates on a different source stack, the 9001 moves the
      top `c` crates keeping their order and touches nothing else; on a
      single stack it changes nothing. */
  lemma Move9001Block(stacks: seq<Stack>, f: nat, t: nat, c: nat)
    requires f < |stacks| && t < |stacks| && c <= |stacks[f]|
    ensures f != t ==> var r := Move9001(stacks, f, t, c);
      && r[f] == stacks[f][..|stacks[f]| - c]
      && r[t] == stacks[t] + stacks[f][|stacks[f]| - c..]
      && forall i :: 0 <= i < |stacks| && i != f && i != t ==> r[i] == stacks[i]
    ensures f == t ==> Move9001(stacks, f, t, c) == stacks
  {
    var from := stacks[f];
    var n := |from|;
    assert SpliceStart(n, n - c) == n - c;
    assert from[..n - c] + from[n..] == from[..n - c];
    if f == t {
      assert Move9001(stacks, f, t, c) == stacks[f := from[..n - c] + from[n - c..n]];
      assert from[..n - c] + from[n - c..n] == from;
    }
  }

  /** The number of crates on all stacks. */
  function Total(stacks: seq<Stack>): nat
  {
    if stacks == [] then 0 else Total(stacks[..|stacks| - 1]) + |stacks[|stacks| - 1]|
  }

  lemma {:induction false} TotalUpdate(stacks: seq<Stack>, i: nat, v: Stack)
    requires i < |stacks|
    ensures Total(stacks[i := v]) == Total(stacks) - |stacks[i]| + |v|
  {
    var n := |stacks|;
    if i < n - 1 {
      TotalUpdate(stacks[..n - 1], i, v);
      assert stacks[i := v][..n - 1] == stacks[..n - 1][i := v];
    } else {
      assert stacks[i := v][..n - 1] == stacks[..n - 1];
    }
  }

  /** Both cranes, given enough crates, keep the number of crates. */
  lemma MovesKeepTotal(stacks: seq<Stack>, f: nat, t: nat, c: nat)
    requires f < |stacks| && t < |stacks| && c <= |stacks[f]|
    ensures Total(Steps(stacks, f, t, c)) == Total(stacks)
    ensures Total(Move9001(stacks, f, t, c)) == Total(stacks)
  {
    Move9001Block(stacks, f, t, c);
    if f == t {
      StepsSameStack(stacks, f, c);
    } else {
      StepsMoveReversed(stacks, f, t, c);
      var n := |stacks[f]|;
      var mid := stacks[f := stacks[f][..n - c]];
      TotalUpdate(stacks, f, stacks[f][..n - c]);
      TotalUpdate(mid, t, stacks[t] + stacks[f][n - c..]);
      var r := Steps(stacks, f, t, c);
      assert r == mid[t := stacks[t] + Reverse(stacks[f][n - c..])];
      TotalUpdate(mid, t, stacks[t] + Reverse(stacks[f][n - c..]));
      assert Move9001(stacks, f, t, c) == mid[t := stacks[t] + stacks[f][n - c..]];
    }
  }

  /** `getTopStacks`: the top crates joined. */
  function GetTopStacks(stacks: seq<Stack>): string
  {
    if stacks == [] then "" else GetTopStacks(stacks[..|stacks| - 1]) + Top(stacks[|stacks| - 1])
  }

  /** When every stack has a one-character top crate, the message has one
      character per stack: its top crate, in stack order. */
  lemma {:induction false} TopStacksMessage(stacks: seq<Stack>)
    requires forall i :: 0 <= i < |stacks| ==> stacks[i] != [] && |Top(stacks[i])| == 1
    ensures |GetTopStacks(stacks)| == |stacks|
    ensures forall i :: 0 <= i < |stacks| ==> [GetTopStacks(stacks)[i]] == Top(stacks[i])
  {
    if stacks != [] {
      var init := stacks[..|stacks| - 1];
      TopStacksMessage(init);
      var m := GetTopStacks(init);
      var last := Top(stacks[|stacks| - 1]);
      assert GetTopStacks(stacks) == m + last;
      forall i | 0 <= i < |stacks|
        ensures [GetTopStacks(stacks)[i]] == Top(stacks[i])
      {
        if i < |init| {
          assert init[i] == stacks[i];
          assert (m + last)[i] == m[i];
        } else {
          assert (m + last)[i] == last[0];
        }
      }
    }
  }

  /** One move on values: `None` when it names a missing stack, except
      that the 9000 moves no crate at all for a count of zero. */
  function Apply(stacks: seq<Stack>, move: Move, newer: bool): (r: Option<seq<Stack>>)
    ensures r.Some? ==> |r.value| == |stacks|
  {
    if !ValidMove(stacks, move) then (if !newer && move.count == 0 then Some(stacks) else None)
    else if newer then Some(Move9001(stacks, move.from - 1, move.to - 1, move.count))
    else Some(Steps(stacks, move.from - 1, move.to - 1, move.count))
  }

  /** All moves in order, stopping at the first that names a missing stack. */
  function ApplyAll(stacks: seq<Stack>, moves: seq<Move>, newer: bool): (r: Option<seq<Stack>>)
    ensures r.Some? ==> |r.value| == |stacks|
    decreases |moves|
  {
    if moves == [] then Some(stacks)
    else match Apply(stacks, moves[0], newer)
      case None => None
      case Some(next) => ApplyAll(next, moves[1..], newer)
  }

  /** Every move names existing stacks and finds enough crates to move. */
  ghost predicate Feasible(stacks: seq<Stack>, moves: seq<Move>, newer: bool)
    decreases |moves|
  {
    moves == [] ||
      (&& ValidMove(stacks, moves[0])
       && moves[0].count <= |stacks[moves[0].from - 1]|
       && Apply(stacks, moves[0], newer).Some?
       && Feasible(Apply(stacks, moves[0], newer).value, moves[1..], newer))
  }

  /** A feasible rearrangement keeps the number of crates. */
  lemma {:induction false} FeasibleKeepsTotal(stacks: seq<Stack>, moves: seq<Move>, newer: bool)
    requires Feasible(stacks, moves, newer)
    ensures ApplyAll(stacks, moves, newer).Some?
    ensures Total(ApplyAll(stacks, moves, newer).value) == Total(stacks)
    decreases |moves|
  {
    if moves != [] {
      var m := moves[0];
      MovesKeepTotal(stacks, m.from - 1, m.to - 1, m.count);
      FeasibleKeepsTotal(Apply(stacks, m, newer).value, moves[1..], newer);
    }
  }

  /** Parts 1 and 2: run every move with one crane, then read the tops;
      `ok` is false as soon as a move names a missing stack. */
  method Rearrange(stacks: array<Stack>, moves: seq<Move>, newer: bool) returns (ok: bool, tops: string)
    modifies stacks
    ensures ok <==> ApplyAll(old(stacks[..]), moves, newer).Some?
    ensures ok ==> stacks[..] == ApplyAll(old(stacks[..]), moves, newer).value && tops == GetTopStacks(stacks[..])
  {
    var i := 0;
    ok := true;
    tops := "";
    while i < |moves|
      invariant 0 <= i <= |moves|
      invariant ApplyAll(old(stacks[..]), moves, newer) == ApplyAll(stacks[..], moves[i..], newer)
    {
      if newer {
        ok := PerformMove9001(stacks, moves[i]);
      } else {
        ok := PerformMove9000(stacks, moves[i]);
      }
      if !ok {
        return;
      }
      assert moves[i..][1..] == moves[i + 1..];
      i := i + 1;
    }
    tops := GetTopStacks(stacks[..]);
  }
}
