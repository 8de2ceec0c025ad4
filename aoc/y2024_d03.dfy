/** 2024 day 3: corrupted memory holding `mul(x,y)`, `do()` and `don't()`
    instructions. `run` sums the products of the multiplications, and when
    it respects the switches only those made while the last switch seen,
    on any earlier line too, was `do()`. */
module Day2024_03 {
  import opened Common

  /** An instruction `parseLine` finds; the operands are the one to three
    * digits the pattern matches. */
  datatype Instruction = Mul(x: nat, y: nat) | Do | Dont

  /** The instructions of all lines, in order. */
  function Flatten(lines: seq<seq<Instruction>>): seq<Instruction>
  {
    if lines == [] then [] else Flatten(lines[..|lines| - 1]) + lines[|lines| - 1]
  }

  /** The `execute` flag after `instrs`, starting from `start`. */
  function FlagAfter(start: bool, instrs: seq<Instruction>): bool
  {
    if instrs == [] then start
    else
      match instrs[|instrs| - 1]
      case Do => true
      case Dont => false
      case Mul(_, _) => FlagAfter(start, instrs[..|instrs| - 1])
  }

  /** The products `run` pushes for `instrs`, starting with the flag
    * `start`: a multiplication counts when the switches are ignored or the
    * flag is set. */
  function Results(start: bool, instrs: seq<Instruction>, respectDos: bool): seq<int>
  {
    if instrs == [] then []
    else
      var init := instrs[..|instrs| - 1];
      Results(start, init, respectDos) +
        match instrs[|instrs| - 1]
        case Mul(x, y) => if !respectDos || FlagAfter(start, init) then [x * y] else []
        case _ => []
  }

  /** `run`: the loop over the lines and, within each, over its
    * instructions, with one `execute` flag for all of them. */
  method Run(lines: seq<seq<Instruction>>, respectDos: bool) returns (total: int)
    ensures total == Sum(Results(true, Flatten(lines), respectDos))
  {
    var execute := true;
    var results: seq<int> := [];
    for i := 0 to |lines|
      invariant execute == FlagAfter(true, Flatten(lines[..i]))
      invariant results == Results(true, Flatten(lines[..i]), respectDos)
    {
      var instructions := lines[i];
      ghost var done := Flatten(lines[..i]);
      assert done + instructions[..0] == done;
      for j := 0 to |instructions|
        invariant execute == FlagAfter(true, done + instructions[..j])
        invariant results == Results(true, done + instructions[..j], respectDos)
      {
        var instruction := instructions[j];
        assert (done + instructions[..j + 1])[..|done| + j] == done + instructions[..j];
        match instruction
        case Mul(x, y) =>
          if !respectDos || execute {
            results := results + [x * y];
          }
        case Do =>
          execute := true;
        case Dont =>
          execute := false;
      }
      assert lines[..i + 1][..i] == lines[..i];
      assert instructions[..|instructions|] == instructions;
    }
    assert lines[..|lines|] == lines;
    total := Sum(results);
  }

  function Part1(lines: seq<seq<Instruction>>): int
  {
    Sum(Results(true, Flatten(lines), false))
  }

  function Part2(lines: seq<seq<Instruction>>): int
  {
    Sum(Results(true, Flatten(lines), true))
  }

  /** The products of every multiplication, in order. */
  function Products(instrs: seq<Instruction>): seq<int>
  {
    if instrs == [] then []
    else
      Products(instrs[..|instrs| - 1]) +
        match instrs[|instrs| - 1]
        case Mul(x, y) => [x * y]
        case _ => []
  }

  /** With the switches ignored every multiplication counts, whatever the
    * flag. */
  lemma {:induction false} IgnoringDos(start: bool, instrs: seq<Instruction>)
    ensures Results(start, instrs, false) == Products(instrs)
  {
    if instrs != [] {
      IgnoringDos(start, instrs[..|instrs| - 1]);
    }
  }

  /** The flag is set after `instrs` exactly when the last switch among
    * them is `do()`, or there is none and the flag started set. */
  lemma {:induction false} FlagMeaning(start: bool, instrs: seq<Instruction>)
    ensures FlagAfter(start, instrs) <==>
      (exists k :: 0 <= k < |instrs| && instrs[k] == Do && forall j :: k < j < |instrs| ==> instrs[j].Mul?)
      || (start && forall j :: 0 <= j < |instrs| ==> instrs[j].Mul?)
  {
    if instrs != [] {
      var init, last := instrs[..|instrs| - 1], instrs[|instrs| - 1];
      FlagMeaning(start, init);
      if last.Mul? {
        if exists k :: 0 <= k < |init| && init[k] == Do && forall j :: k < j < |init| ==> init[j].Mul? {
          var k :| 0 <= k < |init| && init[k] == Do && forall j :: k < j < |init| ==> init[j].Mul?;
          assert instrs[k] == Do && forall j :: k < j < |instrs| ==> instrs[j].Mul?;
        }
        if exists k :: 0 <= k < |instrs| && instrs[k] == Do && forall j :: k < j < |instrs| ==> instrs[j].Mul? {
          var k :| 0 <= k < |instrs| && instrs[k] == Do && forall j :: k < j < |instrs| ==> instrs[j].Mul?;
          assert init[k] == Do && forall j :: k < j < |init| ==> init[j].Mul?;
        }
        if start && forall j :: 0 <= j < |init| ==> init[j].Mul? {
          assert forall j :: 0 <= j < |instrs| ==> instrs[j].Mul?;
        }
      } else if last == Do {
        assert instrs[|instrs| - 1] == Do;
      } else {
        forall k | 0 <= k < |instrs| && instrs[k] == Do
          ensures exists j :: k < j < |instrs| && !instrs[j].Mul?
        {
          assert k < |instrs| - 1 && !instrs[|instrs| - 1].Mul?;
        }
      }
    }
  }

  /** The flag carries over from one line to the next: running two runs of
    * instructions one after the other is running their concatenation. */
  lemma {:induction false} ResultsConcat(start: bool, a: seq<Instruction>, b: seq<Instruction>, respectDos: bool)
    ensures FlagAfter(start, a + b) == FlagAfter(FlagAfter(start, a), b)
    ensures Results(start, a + b, respectDos) == Results(start, a, respectDos) + Results(FlagAfter(start, a), b, respectDos)
  {
    if b == [] {
      assert a + b == a;
    } else {
      var init := b[..|b| - 1];
      ResultsConcat(start, a, init, respectDos);
      assert (a + b)[..|a + b| - 1] == a + init;
    }
  }

  /** Respecting the switches keeps a subset of the products, so the total
    * can only drop. */
  lemma {:induction false} RespectingDosDrops(start: bool, instrs: seq<Instruction>)
    ensures Sum(Results(start, instrs, true)) <= Sum(Results(start, instrs, false))
    ensures Sum(Results(start, instrs, true)) >= 0
  {
    if instrs != [] {
      var init := instrs[..|instrs| - 1];
      RespectingDosDrops(start, init);
      var tail := match instrs[|instrs| - 1]
        case Mul(x, y) => [x * y]
        case _ => [];
      var kept := Results(start, instrs, true)[|Results(start, init, true)|..];
      assert Results(start, instrs, true) == Results(start, init, true) + kept;
      assert Results(start, instrs, false) == Results(start, init, false) + tail;
      SumAppend(Results(start, init, true), kept);
      SumAppend(Results(start, init, false), tail);
      if instrs[|instrs| - 1].Mul? {
        MulNonNeg(instrs[|instrs| - 1].x, instrs[|instrs| - 1].y);
      }
    }
  }

  /** Part 2 never exceeds part 1. */
  lemma Part2AtMostPart1(lines: seq<seq<Instruction>>)
    ensures 0 <= Part2(lines) <= Part1(lines)
  {
    RespectingDosDrops(true, Flatten(lines));
  }

  /** A `don't()` switches off the multiplications after it until a `do()`;
    * the switches do not count themselves. */
  lemma DontExample()
    ensures Results(true, [Mul(2, 4), Dont, Mul(5, 5), Do, Mul(8, 5)], true) == [8, 40]
    ensures Results(true, [Mul(2, 4), Dont, Mul(5, 5), Do, Mul(8, 5)], false) == [8, 25, 40]
  {
    var p1 := [Mul(2, 4)];
    var p2 := p1 + [Dont];
    var p3 := p2 + [Mul(5, 5)];
    var p4 := p3 + [Do];
    var p5 := p4 + [Mul(8, 5)];
    assert p1[..0] == [] && p2[..1] == p1 && p3[..2] == p2 && p4[..3] == p3 && p5[..4] == p4;
    assert FlagAfter(true, p1) && !FlagAfter(true, p2) && !FlagAfter(true, p3) && FlagAfter(true, p4);
    assert Results(true, p1, true) == [8] && Results(true, p2, true) == [8];
    assert Results(true, p3, true) == [8] && Results(true, p4, true) == [8];
    assert Results(true, p1, false) == [8] && Results(true, p2, false) == [8];
    assert Results(true, p3, false) == [8, 25] && Results(true, p4, false) == [8, 25];
    assert p5 == [Mul(2, 4), Dont, Mul(5, 5), Do, Mul(8, 5)];
  }
}
