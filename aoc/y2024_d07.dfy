/** 2024 day 7: calibration equations. An equation is valid when some
    choice of `+` and `*` between its values, evaluated left to right,
    gives its result; part 1 sums the results of the valid ones. */
module Day2024_07 {
  import opened Common

  datatype Equation = Equation(result: int, values: seq<int>)

  /** `isValidEquation`: a single value must equal the result; otherwise the
    * first two values are combined by `+`, then by `*`, and the shorter
    * equation is tried. With no values at all `values[0]` is `undefined`,
    * the sums and products are `NaN`, and nothing is valid. */
  predicate IsValidEquation(equation: Equation)
    decreases |equation.values|
  {
    var values := equation.values;
    if |values| == 0 then false
    else if |values| == 1 then values[0] == equation.result
    else
      IsValidEquation(Equation(equation.result, [values[0] + values[1]] + values[2..]))
      || IsValidEquation(Equation(equation.result, [values[0] * values[1]] + values[2..]))
  }

  /** An operator between two values: `true` for `*`, `false` for `+`. */
  function Apply(times: bool, x: int, y: int): int
  {
    if times then x * y else x + y
  }

  /** The value of `values` with the operators `ops` between them, read
    * strictly left to right (no precedence of `*` over `+`). */
  function Evaluate(values: seq<int>, ops: seq<bool>): int
    requires |values| >= 1 && |ops| == |values| - 1
  {
    if |values| == 1 then values[0]
    else Apply(ops[|ops| - 1], Evaluate(values[..|values| - 1], ops[..|ops| - 1]), values[|values| - 1])
  }

  /** Combining the first two values by the first operator leaves the
    * value unchanged. */
  lemma {:induction false} EvaluateFront(values: seq<int>, ops: seq<bool>)
    requires |values| >= 2 && |ops| == |values| - 1
    ensures Evaluate(values, ops) == Evaluate([Apply(ops[0], values[0], values[1])] + values[2..], ops[1..])
  {
    var n := |values|;
    var front := [Apply(ops[0], values[0], values[1])] + values[2..];
    if n == 2 {
      assert values[..1] == [values[0]];
    } else {
      EvaluateFront(values[..n - 1], ops[..n - 2]);
      assert front[..n - 2] == [Apply(ops[0], values[0], values[1])] + values[..n - 1][2..];
      assert ops[1..][..n - 3] == ops[..n - 2][1..];
    }
  }

  /** A valid equation has a choice of operators that evaluates to its
    * result. */
  lemma {:induction false} ValidSound(equation: Equation) returns (ops: seq<bool>)
    requires IsValidEquation(equation)
    ensures |equation.values| >= 1 && |ops| == |equation.values| - 1 && Evaluate(equation.values, ops) == equation.result
    decreases |equation.values|
  {
    var values, result := equation.values, equation.result;
    if |values| == 1 {
      ops := [];
    } else {
      var plus := Equation(result, [values[0] + values[1]] + values[2..]);
      var times := Equation(result, [values[0] * values[1]] + values[2..]);
      var first := !IsValidEquation(plus);
      var ops' := ValidSound(if first then times else plus);
      ops := [first] + ops';
      EvaluateFront(values, ops);
      assert ops[1..] == ops';
    }
  }

  /** Conversely, an equation with a choice of operators that evaluates to
    * its result is valid. */
  lemma {:induction false} ValidComplete(equation: Equation, ops: seq<bool>)
    requires |equation.values| >= 1 && |ops| == |equation.values| - 1 && Evaluate(equation.values, ops) == equation.result
    ensures IsValidEquation(equation)
    decreases |equation.values|
  {
    var values, result := equation.values, equation.result;
    if |values| >= 2 {
      var shorter := Equation(result, [Apply(ops[0], values[0], values[1])] + values[2..]);
      EvaluateFront(values, ops);
      ValidComplete(shorter, ops[1..]);
    }
  }

  /** An equation is valid exactly when it has values and some choice of
    * operators between them evaluates to its result. */
  lemma ValidMeaning(equation: Equation)
    ensures IsValidEquation(equation) <==>
      |equation.values| >= 1 && exists ops :: |ops| == |equation.values| - 1 && Evaluate(equation.values, ops) == equation.result
  {
    if IsValidEquation(equation) {
      var ops := ValidSound(equation);
    }
    if |equation.values| >= 1 && exists ops :: |ops| == |equation.values| - 1 && Evaluate(equation.values, ops) == equation.result {
      var ops :| |ops| == |equation.values| - 1 && Evaluate(equation.values, ops) == equation.result;
      ValidComplete(equation, ops);
    }
  }

  /** The first worked equations: 190 = 10 * 19 and 3267 = 81 + 40 * 27
    * (read left to right) are valid; 83 cannot be made from 17 and 5. */
  lemma Examples()
    ensures IsValidEquation(Equation(190, [10, 19]))
    ensures IsValidEquation(Equation(3267, [81, 40, 27]))
    ensures !IsValidEquation(Equation(83, [17, 5]))
  {
    assert [10 * 19] + [10, 19][2..] == [190];
    assert [81 + 40] + [81, 40, 27][2..] == [121, 27];
    assert [121 * 27] + [121, 27][2..] == [3267];
    assert [17 + 5] + [17, 5][2..] == [22];
    assert [17 * 5] + [17, 5][2..] == [85];
  }

  /** The results of the valid equations, in order. */
  function ValidResults(equations: seq<Equation>): seq<int>
  {
    if equations == [] then []
    else
      var last := equations[|equations| - 1];
      ValidResults(equations[..|equations| - 1]) + if IsValidEquation(last) then [last.result] else []
  }

  /** Part 1: the results of the valid equations, summed. */
  function Part1(equations: seq<Equation>): int
  {
    Sum(ValidResults(equations))
  }

  /** Part 1 sums a selection of the results: with non-negative results it
    * lies between 0 and their total. */
  lemma {:induction false} Part1Bounds(equations: seq<Equation>)
    requires forall k :: 0 <= k < |equations| ==> equations[k].result >= 0
    ensures 0 <= Part1(equations) <= Sum(seq(|equations|, k requires 0 <= k < |equations| => equations[k].result))
  {
    var all := seq(|equations|, k requires 0 <= k < |equations| => equations[k].result);
    if equations != [] {
      var n := |equations|;
      var init := equations[..n - 1];
      Part1Bounds(init);
      var last := equations[n - 1];
      var kept := if IsValidEquation(last) then [last.result] else [];
      SumAppend(ValidResults(init), kept);
      assert all == seq(n - 1, k requires 0 <= k < n - 1 => init[k].result) + [last.result];
      SumAppend(seq(n - 1, k requires 0 <= k < n - 1 => init[k].result), [last.result]);
    }
  }
}
