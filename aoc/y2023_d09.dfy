/** 2023 day 9: extrapolating a sequence from its rows of differences.
    Each row is the differences of the row above, until a row is all zero;
    the prediction adds up the last values of all rows. A row can run out
    of values before it is all zero (a single value, or [1, 2, 4]); the
    source then reads `undefined` from the empty row and predicts NaN,
    modelled as no prediction, next to the corrected rule that counts an
    empty row as 0. */
module Day2023_09 {
  import opened Common

  /** `getDifferences`: the step from each value to the next. */
  function Differences(s: seq<int>): (d: seq<int>)
    ensures |d| == if |s| == 0 then 0 else |s| - 1
    ensures forall i {:trigger d[i]} :: 0 <= i < |d| ==> d[i] == s[i + 1] - s[i]
  {
    if |s| == 0 then [] else seq(|s| - 1, i requires 0 <= i < |s| - 1 => s[i + 1] - s[i])
  }

  /** Summing the differences from the first value gives back the last:
    * the differences determine a sequence up to its first value. */
  lemma {:induction false} DifferencesTelescope(s: seq<int>)
    requires |s| > 0
    ensures s[0] + Sum(Differences(s)) == s[|s| - 1]
  {
    if |s| > 1 {
      var init := s[..|s| - 1];
      DifferencesTelescope(init);
      assert Differences(s) == Differences(init) + [s[|s| - 1] - s[|s| - 2]];
      SumAppend(Differences(init), [s[|s| - 1] - s[|s| - 2]]);
    }
  }

  /** Appending a value appends its step to the differences. */
  lemma DifferencesAppend(s: seq<int>, x: int, step: int)
    requires |s| > 0 && x == s[|s| - 1] + step
    ensures Differences(s + [x]) == Differences(s) + [step]
  {
    var d := Differences(s + [x]);
    assert forall i :: 0 <= i < |d| ==> d[i] == (Differences(s) + [step])[i];
  }

  predicate AllZero(s: seq<int>)
  {
    forall i :: 0 <= i < |s| ==> s[i] == 0
  }

  /** The stack of rows below `s`: its differences, theirs, and so on,
    * ending with the first all-zero row. */
  function Below(s: seq<int>): (rows: seq<seq<int>>)
    ensures |rows| >= 1
    decreases |s|
  {
    var next := Differences(s);
    if AllZero(next) then [next] else [next] + Below(next)
  }

  /** The rows below start with the differences, each row is the
    * differences of the one before, only the last is all zero, and there
    * are at most as many as values. */
  lemma {:induction false} BelowShape(s: seq<int>)
    ensures var rows := Below(s);
      && rows[0] == Differences(s) && AllZero(rows[|rows| - 1]) && |rows| <= |s| + 1
      && forall k :: 0 <= k < |rows| - 1 ==> !AllZero(rows[k]) && rows[k + 1] == Differences(rows[k])
    decreases |s|
  {
    var next := Differences(s);
    if !AllZero(next) {
      BelowShape(next);
      var rows := Below(s);
      assert rows[1..] == Below(next);
    }
  }

  /** `getDifferencesStack`: the sequence and the rows below it. */
  function Stack(s: seq<int>): (rows: seq<seq<int>>)
  {
    [s] + Below(s)
  }

  /** The stack loop of the source: push the next row until it is all
    * zero. */
  method DifferencesStack(s: seq<int>) returns (stack: seq<seq<int>>)
    ensures stack == Stack(s)
  {
    stack := [s];
    var current := s;
    while true
      invariant stack + Below(current) == Stack(s)
      decreases |current|
    {
      var next := Differences(current);
      BelowStep(stack, current);
      stack := stack + [next];
      if AllZero(next) {
        return;
      }
      current := next;
    }
  }

  /** One push of the stack loop: the next row moves from the rows still
    * to come onto the stack. */
  lemma BelowStep(stack: seq<seq<int>>, current: seq<int>)
    ensures var next := Differences(current);
      stack + Below(current)
      == if AllZero(next) then stack + [next] else (stack + [next]) + Below(next)
  {
    var next := Differences(current);
    if !AllZero(next) {
      assert stack + ([next] + Below(next)) == (stack + [next]) + Below(next);
    }
  }

  /** The last value of every row is there: no row of the stack is empty. */
  ghost predicate NoEmptyRow(rows: seq<seq<int>>)
  {
    forall k :: 0 <= k < |rows| ==> |rows[k]| > 0
  }

  /** The reverse loop of `predict`, as written: each row adds its last
    * value; an empty row reads `undefined` and the sum becomes NaN. */
  function AddLasts(rows: seq<seq<int>>): (r: Option<int>)
  {
    if rows == [] then Some(0)
    else
      var rest := AddLasts(rows[1..]);
      if |rows[0]| == 0 || rest.None? then None else Some(rows[0][|rows[0]| - 1] + rest.value)
  }

  /** The sum is NaN exactly when some row is empty. */
  lemma {:induction false} AddLastsSome(rows: seq<seq<int>>)
    ensures AddLasts(rows).Some? <==> NoEmptyRow(rows)
  {
    if rows != [] {
      AddLastsSome(rows[1..]);
      assert forall k :: 1 <= k < |rows| ==> rows[k] == rows[1..][k - 1];
    }
  }

  lemma AddLastsCons(row: seq<int>, rest: seq<seq<int>>)
    ensures AddLasts([row] + rest)
      == if |row| == 0 || AddLasts(rest).None? then None else Some(row[|row| - 1] + AddLasts(rest).value)
  {
    assert ([row] + rest)[1..] == rest;
  }

  /** The stack of a sequence is the sequence on top of the stack of its
    * differences, unless they are already all zero. */
  lemma StackCons(s: seq<int>)
    ensures var next := Differences(s);
      Stack(s) == if AllZero(next) then [s] + [next] else [s] + Stack(next)
  {
  }

  /** `predict` as written. */
  function Predict(s: seq<int>): Option<int>
  {
    AddLasts(Stack(s))
  }

  /** The loop of `predict`: from the bottom row up, each row's last value
    * is added to the prediction. */
  method PredictLoop(s: seq<int>) returns (prediction: Option<int>)
    ensures prediction == Predict(s)
  {
    var stack := DifferencesStack(s);
    var acc: Option<int> := Some(0);
    var k := |stack|;
    while k > 0
      invariant 0 <= k <= |stack|
      invariant acc == AddLasts(stack[k..])
    {
      k := k - 1;
      var entry := stack[k];
      assert stack[k..][1..] == stack[k + 1..];
      if |entry| == 0 || acc.None? {
        acc := None;
      } else {
        acc := Some(entry[|entry| - 1] + acc.value);
      }
    }
    prediction := acc;
  }

  /** The finding: a single value has an empty row of differences, which
    * is all zero, so the source predicts NaN where the value itself is
    * evidently meant. */
  lemma SingleValueIsNaN(x: int)
    ensures Predict([x]) == None
  {
    assert Differences([x]) == [];
    StackCons([x]);
    AddLastsCons([x], [[]]);
    AddLastsCons([], []);
  }

  /** So does [1, 2, 4], whose rows [1, 2] and [1] are not all zero. */
  lemma QuadraticIsNaN()
    ensures Predict([1, 2, 4]) == None
  {
    assert Differences([1, 2, 4]) == [1, 2];
    assert Differences([1, 2]) == [1];
    assert Differences([1]) == [];
    StackCons([1, 2, 4]);
    StackCons([1, 2]);
    StackCons([1]);
    AddLastsSome(Stack([1, 2, 4]));
    assert Stack([1, 2, 4])[3] == [];
  }

  /** The corrected last value of a row: an empty row counts as 0. */
  function LastOr0(row: seq<int>): int
  {
    if |row| == 0 then 0 else row[|row| - 1]
  }

  /** The corrected prediction: the sum of the rows' last values, an empty
    * row counting as 0. */
  function Extrapolate(s: seq<int>): int
    decreases |s|
  {
    var next := Differences(s);
    LastOr0(s) + (if AllZero(next) then LastOr0(next) else Extrapolate(next))
  }

  /** Where the source does predict, it agrees with the corrected rule. */
  lemma {:induction false} PredictAgrees(s: seq<int>)
    requires Predict(s).Some?
    ensures Predict(s).value == Extrapolate(s)
    decreases |s|
  {
    var next := Differences(s);
    StackCons(s);
    if AllZero(next) {
      AddLastsCons(s, [next]);
      AddLastsCons(next, []);
    } else {
      AddLastsCons(s, Stack(next));
      PredictAgrees(next);
    }
  }

  /** An all-zero row extrapolates to 0. */
  lemma ZeroExtrapolates(s: seq<int>)
    requires AllZero(s)
    ensures Extrapolate(s) == 0
  {
    assert AllZero(Differences(s));
  }

  /** The corrected prediction extends the sequence consistently with its
    * differences: the new step is the prediction of the differences. */
  lemma ExtrapolateExtends(s: seq<int>)
    requires |s| > 0
    ensures Differences(s + [Extrapolate(s)]) == Differences(s) + [Extrapolate(Differences(s))]
  {
    ExtrapolateStep(s);
    DifferencesAppend(s, Extrapolate(s), Extrapolate(Differences(s)));
  }

  /** The corrected prediction is the last value plus the prediction of
    * the differences. */
  lemma ExtrapolateStep(s: seq<int>)
    requires |s| > 0
    ensures Extrapolate(s) == s[|s| - 1] + Extrapolate(Differences(s))
  {
    var next := Differences(s);
    if AllZero(next) {
      ZeroExtrapolates(next);
    }
  }

  /** The corrected rule gives 5 for [5] and 7 for [1, 2, 4], where the
    * source gives NaN. */
  lemma CorrectedExamples()
    ensures Extrapolate([5]) == 5 && Extrapolate([1, 2, 4]) == 7
  {
    assert Differences([5]) == [];
    assert Differences([1, 2, 4]) == [1, 2];
    assert Differences([1, 2]) == [1];
    assert Differences([1]) == [];
  }

  /** A constant sequence predicts that constant. */
  lemma ConstantPredicts(s: seq<int>, c: int)
    requires |s| > 0 && forall i :: 0 <= i < |s| ==> s[i] == c
    ensures Extrapolate(s) == c
  {
    assert AllZero(Differences(s));
  }

  /** With at least two values the source also predicts it. */
  lemma ConstantPredictsAsWritten(s: seq<int>, c: int)
    requires |s| >= 2 && forall i :: 0 <= i < |s| ==> s[i] == c
    ensures Predict(s) == Some(c)
  {
    var next := Differences(s);
    assert AllZero(next) && |next| > 0;
    StackCons(s);
    AddLastsCons(s, [next]);
    AddLastsCons(next, []);
  }

  /** Addition where NaN absorbs everything. */
  function AddOption(a: Option<int>, b: Option<int>): Option<int>
  {
    if a.None? || b.None? then None else Some(a.value + b.value)
  }

  /** The sum of some values that may each be NaN; NaN when one is. */
  function SumOptions(ps: seq<Option<int>>): Option<int>
  {
    if ps == [] then Some(0)
    else
      AddOption(SumOptions(ps[..|ps| - 1]), ps[|ps| - 1])
  }

  /** The sum is NaN exactly when one of the values is, and otherwise the
    * sum of the values. */
  lemma {:induction false} SumOptionsMeaning(ps: seq<Option<int>>)
    ensures SumOptions(ps).Some? <==> forall i :: 0 <= i < |ps| ==> ps[i].Some?
    ensures SumOptions(ps).Some? ==>
      SumOptions(ps).value == Sum(seq(|ps|, i requires 0 <= i < |ps| && ps[i].Some? => ps[i].value))
  {
    if ps != [] {
      var init := ps[..|ps| - 1];
      SumOptionsMeaning(init);
      assert forall i :: 0 <= i < |init| ==> init[i] == ps[i];
      if SumOptions(ps).Some? {
        var all := seq(|ps|, i requires 0 <= i < |ps| && ps[i].Some? => ps[i].value);
        var pre := seq(|init|, i requires 0 <= i < |init| && init[i].Some? => init[i].value);
        assert all == pre + [ps[|ps| - 1].value];
        SumAppend(pre, [ps[|ps| - 1].value]);
      }
    }
  }

  /** One more value added to a running sum. */
  lemma SumOptionsPrefix(ps: seq<Option<int>>, i: nat)
    requires i < |ps|
    ensures SumOptions(ps[..i + 1]) == AddOption(SumOptions(ps[..i]), ps[i])
  {
    assert ps[..i + 1][..i] == ps[..i];
  }

  /** The predictions of the sequences, in order. */
  function Predictions(sequences: seq<seq<int>>): (ps: seq<Option<int>>)
    ensures |ps| == |sequences|
  {
    seq(|sequences|, i requires 0 <= i < |sequences| => Predict(sequences[i]))
  }

  /** Where no prediction is NaN, each is the corrected one. */
  lemma PredictionsAgree(sequences: seq<seq<int>>)
    ensures forall i :: 0 <= i < |sequences| && Predictions(sequences)[i].Some? ==>
      Predictions(sequences)[i].value == Extrapolate(sequences[i])
  {
    forall i | 0 <= i < |sequences| && Predictions(sequences)[i].Some?
      ensures Predictions(sequences)[i].value == Extrapolate(sequences[i])
    {
      PredictAgrees(sequences[i]);
    }
  }

  /** The prediction for the sequence at index `i`. */
  method PredictAt(sequences: seq<seq<int>>, i: nat) returns (p: Option<int>)
    requires i < |sequences|
    ensures p == Predictions(sequences)[i]
  {
    p := PredictLoop(sequences[i]);
  }

  /** Part 1: the sum of the predictions, NaN as soon as one is. */
  method Part1(sequences: seq<seq<int>>) returns (r: Option<int>)
    ensures r == SumOptions(Predictions(sequences))
  {
    ghost var ps := Predictions(sequences);
    r := Some(0);
    for i := 0 to |sequences|
      invariant r == SumOptions(ps[..i])
    {
      var p := PredictAt(sequences, i);
      SumOptionsPrefix(ps, i);
      r := AddOption(r, p);
    }
    assert ps[..|sequences|] == ps;
  }
}
