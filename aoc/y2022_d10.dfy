/** 2022 day 10: a CPU with one register x. `noop` takes one cycle and
    `addx v` two, after which x grows by v. Every cycle records x and
    draws one pixel of a 40-wide screen. */
module Day2022_10 {
  import opened Common

  datatype Instruction = Noop | Addx(value: int)

  /** `CYCLE_COUNT`. */
  function CycleCount(i: Instruction): nat
  {
    match i
    case Noop => 1
    case Addx(_) => 2
  }

  function Delta(i: Instruction): int
  {
    match i
    case Noop => 0
    case Addx(v) => v
  }

  /** x after running `instrs` from `x`. */
  function FinalX(x: int, instrs: seq<Instruction>): int
    decreases |instrs|
  {
    if instrs == [] then x else FinalX(x + Delta(instrs[0]), instrs[1..])
  }

  /** The value of x during each cycle of `instrs`, started with `x`: an
      instruction holds the x it found for all its cycles. */
  function Trace(x: int, instrs: seq<Instruction>): seq<int>
    decreases |instrs|
  {
    if instrs == [] then []
    else seq(CycleCount(instrs[0]), _ => x) + Trace(x + Delta(instrs[0]), instrs[1..])
  }

  function TotalCycles(instrs: seq<Instruction>): nat
  {
    if instrs == [] then 0 else CycleCount(instrs[0]) + TotalCycles(instrs[1..])
  }

  lemma {:induction false} TraceLength(x: int, instrs: seq<Instruction>)
    ensures |Trace(x, instrs)| == TotalCycles(instrs)
    decreases |instrs|
  {
    if instrs != [] {
      TraceLength(x + Delta(instrs[0]), instrs[1..]);
    }
  }

  /** Running two programs one after the other records the first's cycles
      and then the second's, started from the x the first left. */
  lemma {:induction false} TraceAppend(x: int, a: seq<Instruction>, b: seq<Instruction>)
    ensures Trace(x, a + b) == Trace(x, a) + Trace(FinalX(x, a), b)
    ensures FinalX(x, a + b) == FinalX(FinalX(x, a), b)
    decreases |a|
  {
    if a != [] {
      assert (a + b)[0] == a[0] && (a + b)[1..] == a[1..] + b;
      TraceAppend(x + Delta(a[0]), a[1..], b);
    } else {
      assert a + b == b;
    }
  }

  /** `addx v` shows the old x during both its cycles; the new x is seen
      only from the next instruction's first cycle. */
  lemma AddxTakesEffectAfter(x: int, before: seq<Instruction>, v: int, after: seq<Instruction>)
    requires after != []
    ensures var t := Trace(x, before + [Addx(v)] + after);
      var k := |Trace(x, before)|;
      && k + 2 < |t|
      && t[k] == FinalX(x, before) && t[k + 1] == FinalX(x, before)
      && t[k + 2] == FinalX(x, before) + v
  {
    TraceAppend(x, before, [Addx(v)] + after);
    assert before + [Addx(v)] + after == before + ([Addx(v)] + after);
    var y := FinalX(x, before);
    AddxTrace(y, v, after);
    var head := Trace(x, before);
    var rest := Trace(y + v, after);
    assert Trace(x, before + [Addx(v)] + after) == head + ([y, y] + rest);
    assert rest != [] by {
      assert Trace(y + v, after)[..CycleCount(after[0])] == seq(CycleCount(after[0]), _ => y + v);
    }
    assert (head + ([y, y] + rest))[|head| + 2] == rest[0];
    assert rest[0] == y + v;
  }

  /** `addx v` records the x it found twice. */
  lemma AddxTrace(y: int, v: int, after: seq<Instruction>)
    ensures Trace(y, [Addx(v)] + after) == [y, y] + Trace(y + v, after)
  {
    var s := [Addx(v)] + after;
    assert s[0] == Addx(v) && s[1..] == after;
    assert seq(2, _ => y) == [y, y];
  }

  /** The pixel drawn in a cycle: lit when the sprite at x covers the
      cycle's column. */
  function Pixel(x: int, column: int): char
  {
    if x >= column - 1 && x <= column + 1 then '#' else '.'
  }

  /** The screen drawn over cycles with register values `xs`. */
  function ScreenOf(xs: seq<int>): (screen: seq<char>)
    ensures |screen| == |xs|
  {
    seq(|xs|, i requires 0 <= i < |xs| => Pixel(xs[i], i % 40))
  }

  /** A pixel is lit exactly when x is within one of the cycle's column. */
  lemma PixelLit(xs: seq<int>, i: nat)
    requires i < |xs|
    ensures ScreenOf(xs)[i] == '#' <==> Abs(xs[i] - i % 40) <= 1
  {
  }

  /** `STRENGTH_CYCLES`. */
  const StrengthCycles: seq<nat> := [20, 60, 100, 140, 180, 220]

  /** `signalStrength`: the sum of cycle times x during that cycle over the
      strength cycles. Reading a cycle that never ran gives NaN, modelled
      as no value. */
  function SignalStrength(xs: seq<int>): (r: Option<int>)
    ensures r.Some? <==> |xs| >= 220
    ensures r.Some? ==> r.value == 20 * xs[19] + 60 * xs[59] + 100 * xs[99] + 140 * xs[139] + 180 * xs[179] + 220 * xs[219]
  {
    if |xs| < StrengthCycles[5] then None
    else
      var terms := seq(6, k requires 0 <= k < 6 => StrengthCycles[k] * xs[StrengthCycles[k] - 1]);
      assert terms[..1][..0] == [] && terms[..2][..1] == terms[..1] && terms[..3][..2] == terms[..2];
      assert terms[..4][..3] == terms[..3] && terms[..5][..4] == terms[..4] && terms[..5] == terms[..|terms| - 1];
      assert Sum(terms[..1]) == terms[0];
      assert Sum(terms[..2]) == Sum(terms[..1]) + terms[1];
      assert Sum(terms[..3]) == Sum(terms[..2]) + terms[2];
      assert Sum(terms[..4]) == Sum(terms[..3]) + terms[3];
      assert Sum(terms[..5]) == Sum(terms[..4]) + terms[4];
      Some(Sum(terms))
  }

  class CPU {
    var x: int
    var xAtCycles: seq<int>
    var screen: seq<char>

    /** The screen holds one pixel per recorded cycle, drawn from that
        cycle's x. */
    ghost predicate Valid()
      reads this
    {
      screen == ScreenOf(xAtCycles)
    }

    constructor()
      ensures x == 1 && xAtCycles == [] && screen == []
      ensures Valid()
    {
      x := 1;
      xAtCycles := [];
      screen := [];
    }

    /** One cycle: draw a pixel and record x. */
    method Cycle()
      modifies this
      ensures x == old(x)
      ensures xAtCycles == old(xAtCycles) + [x]
      ensures screen == old(screen) + [Pixel(x, |old(xAtCycles)| % 40)]
      ensures old(Valid()) ==> Valid()
    {
      var spritePosition := |xAtCycles| % 40;
      var drawPixel := x >= spritePosition - 1 && x <= spritePosition + 1;
      screen := screen + [if drawPixel then '#' else '.'];
      xAtCycles := xAtCycles + [x];
    }

    /** All the cycles of one instruction, then its effect on x. */
    method Execute(instruction: Instruction)
      modifies this
      ensures xAtCycles == old(xAtCycles) + Trace(old(x), [instruction])
      ensures x == FinalX(old(x), [instruction])
      ensures old(Valid()) ==> Valid()
    {
      var cycleCount := CycleCount(instruction);
      ghost var x0 := x;
      var c := 0;
      while c < cycleCount
        invariant 0 <= c <= cycleCount && x == x0 == old(x)
        invariant xAtCycles == old(xAtCycles) + seq(c, _ => x0)
        invariant old(Valid()) ==> Valid()
      {
        Cycle();
        c := c + 1;
      }
      if instruction.Addx? {
        x := x + instruction.value;
      }
    }
  }

  /** Run every instruction on a fresh CPU; part 1 reports the signal
      strength, part 2 the screen. */
  method RunProgram(instructions: seq<Instruction>) returns (strength: Option<int>, screen: seq<char>)
    ensures strength == SignalStrength(Trace(1, instructions))
    ensures screen == ScreenOf(Trace(1, instructions))
  {
    var cpu := new CPU();
    var i := 0;
    while i < |instructions|
      invariant 0 <= i <= |instructions| && cpu.Valid()
      invariant cpu.xAtCycles == Trace(1, instructions[..i])
      invariant cpu.x == FinalX(1, instructions[..i])
    {
      cpu.Execute(instructions[i]);
      TraceAppend(1, instructions[..i], [instructions[i]]);
      assert instructions[..i + 1] == instructions[..i] + [instructions[i]];
      i := i + 1;
    }
    assert instructions[..i] == instructions;
    strength := SignalStrength(cpu.xAtCycles);
    screen := cpu.screen;
  }
}
