/** 2023 day 1: calibration values. Each line yields the digits it spells,
    either as a decimal digit or as a number word "one" to "nine", in order
    of position; the line's value is ten times its first digit plus its
    last, and the answer sums the lines' values. */
module Day2023_01 {
  import opened Common

  /** `TEXT_MAP`, in its key order: word `k` stands for `k + 1`. */
  const Words: seq<string> := ["one", "two", "three", "four", "five", "six", "seven", "eight", "nine"]

  /** `line.startsWith(word, i)` */
  predicate StartsWith(line: string, word: string, i: nat)
  {
    i + |word| <= |line| && line[i..i + |word|] == word
  }

  /** The values of the first `k` words that start at `i`, in key order. */
  function WordsAt(line: string, i: nat, k: nat): (r: seq<int>)
    requires k <= |Words|
    ensures forall v :: v in r ==> 1 <= v <= 9
  {
    if k == 0 then []
    else WordsAt(line, i, k - 1) + (if StartsWith(line, Words[k - 1], i) then [k] else [])
  }

  /** What position `i` contributes: its digit, or else the values of the
    * words that start there. */
  function At(line: string, i: nat): (r: seq<int>)
    requires i < |line|
    ensures forall v :: v in r ==> 0 <= v <= 9
  {
    if IsDigit(line[i]) then [line[i] as int - '0' as int] else WordsAt(line, i, |Words|)
  }

  /** What each position contributes, in order. */
  function Contributions(line: string): (r: seq<seq<int>>)
    ensures |r| == |line|
    ensures forall i :: 0 <= i < |line| ==> r[i] == At(line, i)
  {
    seq(|line|, i requires 0 <= i < |line| => At(line, i))
  }

  /** The contributions one after the other. */
  function Flatten(parts: seq<seq<int>>): seq<int>
  {
    if parts == [] then [] else Flatten(parts[..|parts| - 1]) + parts[|parts| - 1]
  }

  /** The digits of a line, in order of position. */
  function Digits(line: string): seq<int>
  {
    Flatten(Contributions(line))
  }

  /** `lineToDigits` */
  method LineToDigits(line: string) returns (numbers: seq<int>)
    ensures numbers == Digits(line)
  {
    ghost var parts := Contributions(line);
    numbers := [];
    for i := 0 to |line|
      invariant numbers == Flatten(parts[..i])
    {
      assert parts[..i + 1][..i] == parts[..i];
      var c := line[i];
      if '0' <= c <= '9' {
        numbers := numbers + [c as int - '0' as int];
        continue;
      }
      numbers := PushWords(line, i, numbers);
    }
    assert parts[..|line|] == parts;
  }

  /** The inner loop of `lineToDigits`: pushes the value of each word that
    * starts at `i`, in key order. */
  method PushWords(line: string, i: nat, numbers: seq<int>) returns (pushed: seq<int>)
    ensures pushed == numbers + WordsAt(line, i, |Words|)
  {
    pushed := numbers;
    for k := 0 to |Words|
      invariant pushed == numbers + WordsAt(line, i, k)
    {
      if StartsWith(line, Words[k], i) {
        pushed := pushed + [k + 1];
        continue;
      }
    }
  }

  /** A digit character gives its value; elsewhere every number word that
    * starts at the position gives its value, and a position where neither
    * starts gives nothing. */
  lemma AtIs(line: string, i: nat)
    requires i < |line|
    ensures IsDigit(line[i]) ==> At(line, i) == [line[i] as int - '0' as int]
    ensures !IsDigit(line[i]) ==>
      forall j :: 0 <= j < |Words| && StartsWith(line, Words[j], i) ==> j + 1 in At(line, i)
    ensures (forall j :: 0 <= j < |Words| ==> !StartsWith(line, Words[j], i)) ==>
      At(line, i) == (if IsDigit(line[i]) then [line[i] as int - '0' as int] else [])
  {
    forall j | 0 <= j < |Words| && StartsWith(line, Words[j], i)
      ensures j + 1 in WordsAt(line, i, |Words|)
    {
      WordCounted(line, i, |Words|, j);
    }
    if forall j :: 0 <= j < |Words| ==> !StartsWith(line, Words[j], i) {
      NoneAt(line, i, |Words|);
    }
  }

  lemma {:induction false} WordCounted(line: string, i: nat, k: nat, j: nat)
    requires j < k <= |Words| && StartsWith(line, Words[j], i)
    ensures j + 1 in WordsAt(line, i, k)
  {
    if k - 1 > j {
      WordCounted(line, i, k - 1, j);
    }
  }

  lemma {:induction false} NoneAt(line: string, i: nat, k: nat)
    requires k <= |Words|
    requires forall j :: 0 <= j < k ==> !StartsWith(line, Words[j], i)
    ensures WordsAt(line, i, k) == []
  {
    if k > 0 {
      NoneAt(line, i, k - 1);
    }
  }

  /** Parts that are all empty add nothing. */
  lemma {:induction false} Silent(parts: seq<seq<int>>)
    requires forall j :: 0 <= j < |parts| ==> parts[j] == []
    ensures Flatten(parts) == []
  {
    if parts != [] {
      Silent(parts[..|parts| - 1]);
    }
  }

  /** The first digit of the line comes from the first position that gives
    * one. */
  lemma {:induction false} FirstDigit(parts: seq<seq<int>>, i: nat)
    requires i < |parts| && parts[i] != []
    requires forall j :: 0 <= j < i ==> parts[j] == []
    ensures Flatten(parts) != [] && Flatten(parts)[0] == parts[i][0]
  {
    var init := parts[..|parts| - 1];
    if i == |parts| - 1 {
      Silent(init);
    } else {
      FirstDigit(init, i);
    }
  }

  /** The last digit of the line comes from the last position that gives
    * one. */
  lemma {:induction false} LastDigit(parts: seq<seq<int>>, i: nat)
    requires i < |parts| && parts[i] != []
    requires forall j :: i < j < |parts| ==> parts[j] == []
    ensures Flatten(parts) != []
    ensures Flatten(parts)[|Flatten(parts)| - 1] == parts[i][|parts[i]| - 1]
  {
    if i < |parts| - 1 {
      LastDigit(parts[..|parts| - 1], i);
    }
  }

  lemma {:induction false} FlattenRange(parts: seq<seq<int>>)
    requires forall j, v :: 0 <= j < |parts| && v in parts[j] ==> 0 <= v <= 9
    ensures forall v :: v in Flatten(parts) ==> 0 <= v <= 9
  {
    if parts != [] {
      FlattenRange(parts[..|parts| - 1]);
    }
  }

  /** Every digit of a line is a decimal digit's value. */
  lemma DigitsRange(line: string)
    ensures forall v :: v in Digits(line) ==> 0 <= v <= 9
  {
    FlattenRange(Contributions(line));
  }

  /** A line's calibration value from its digits: ten times the first plus
    * the last; the source's assertion fails on a line without digits. */
  function Calibration(digits: seq<int>): (r: Result<int>)
    ensures r.Success? <==> digits != []
    ensures r.Success? && (forall v :: v in digits ==> 0 <= v <= 9) ==> 0 <= r.value <= 99
  {
    if |digits| >= 1 then
      assert digits[0] in digits && digits[|digits| - 1] in digits;
      Success(10 * digits[0] + digits[|digits| - 1])
    else Failure("digits.length >= 1")
  }

  /** The digits of each line. */
  function LineDigits(lines: seq<string>): (r: seq<seq<int>>)
    ensures |r| == |lines|
  {
    seq(|lines|, i requires 0 <= i < |lines| => Digits(lines[i]))
  }

  /** The sum of the lines' calibration values; the first line without
    * digits fails. */
  function Total(ds: seq<seq<int>>): (r: Result<int>)
    ensures r.Success? <==> forall i :: 0 <= i < |ds| ==> ds[i] != []
    ensures r.Success? && (forall i, v :: 0 <= i < |ds| && v in ds[i] ==> 0 <= v <= 9) ==>
      0 <= r.value <= 99 * |ds|
  {
    if ds == [] then Success(0)
    else
      var first := Calibration(ds[0]);
      var rest := Total(ds[1..]);
      assert forall i :: 1 <= i < |ds| ==> ds[1..][i - 1] == ds[i];
      if first.Failure? then Failure(first.message)
      else if rest.Failure? then rest
      else Success(first.value + rest.value)
  }

  /** Every line's calibration value lies in [0, 99]. */
  lemma TotalRange(lines: seq<string>)
    ensures Total(LineDigits(lines)).Success? ==> 0 <= Total(LineDigits(lines)).value <= 99 * |lines|
  {
    forall i, v | 0 <= i < |lines| && v in LineDigits(lines)[i]
      ensures 0 <= v <= 9
    {
      DigitsRange(lines[i]);
    }
  }

  /** `main`: each line's digits, their calibration value, and the sum. */
  method SumCalibrations(lines: seq<string>) returns (r: Result<int>)
    ensures r == Total(LineDigits(lines))
  {
    ghost var ds := LineDigits(lines);
    var values: seq<int> := [];
    for i := 0 to |lines|
      invariant |values| == i
      invariant forall j :: 0 <= j < i ==> Calibration(ds[j]) == Success(values[j])
    {
      var digits := LineToDigits(lines[i]);
      assert digits == ds[i];
      if |digits| < 1 {
        FirstFailure(ds, i);
        return Failure("digits.length >= 1");
      }
      values := values + [10 * digits[0] + digits[|digits| - 1]];
    }
    r := Success(Sum(values));
    TotalIsSum(ds, values);
  }

  /** Lines before the first one without digits do not change the failure. */
  lemma {:induction false} FirstFailure(ds: seq<seq<int>>, i: nat)
    requires i < |ds| && ds[i] == []
    requires forall j :: 0 <= j < i ==> ds[j] != []
    ensures Total(ds) == Failure("digits.length >= 1")
  {
    if i > 0 {
      FirstFailure(ds[1..], i - 1);
    }
  }

  lemma {:induction false} TotalIsSum(ds: seq<seq<int>>, values: seq<int>)
    requires |values| == |ds|
    requires forall j :: 0 <= j < |ds| ==> Calibration(ds[j]) == Success(values[j])
    ensures Total(ds) == Success(Sum(values))
  {
    if ds != [] {
      TotalIsSum(ds[1..], values[1..]);
      SumFront(values);
    }
  }

  lemma SumFront(s: seq<int>)
    requires s != []
    ensures Sum(s) == s[0] + Sum(s[1..])
  {
    SumAppend([s[0]], s[1..]);
    assert [s[0]] + s[1..] == s;
  }
}
