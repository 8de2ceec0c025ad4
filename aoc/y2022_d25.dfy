/** 2022 day 25: SNAFU numbers, written in balanced base 5 with the digits
    '2', '1', '0', '-' (minus one) and '=' (minus two). The answer sums the
    numbers of the input and writes the total back in SNAFU. */
module Day2022_25 {
  import opened Common

  const Base := 5

  /** The number of digit positions `fromDecimal` tries, from 5^100 down. */
  const Width := 101

  /** `Math.pow(BASE, k)` */
  function Pow(k: nat): (r: int)
    ensures r >= 1
  {
    if k == 0 then 1 else Base * Pow(k - 1)
  }

  lemma {:induction false} PowOdd(k: nat)
    ensures Pow(k) % 2 == 1
  {
    if k > 0 {
      PowOdd(k - 1);
      var q := Pow(k - 1) / 2;
      assert Pow(k - 1) == 2 * q + 1;
      assert Pow(k) == 2 * (5 * q + 2) + 1;
    }
  }

  lemma {:induction false} PowGrows(j: nat, k: nat)
    requires j <= k
    ensures Pow(j) <= Pow(k)
    decreases k
  {
    if j < k {
      PowGrows(j, k - 1);
    }
  }

  /** The digits `fromDecimal` writes. */
  const Digits := ['2', '1', '0', '-', '=']

  /** What a character adds at its position in `toDecimal`: anything but the
    * four non-zero digits adds nothing. */
  function DigitValue(c: char): (d: int)
    ensures -2 <= d <= 2
  {
    if c == '2' then 2
    else if c == '1' then 1
    else if c == '-' then -1
    else if c == '=' then -2
    else 0
  }

  /** The number a SNAFU string stands for: each digit weighted by 5 to the
    * power of its distance from the right end. */
  function Value(s: seq<char>): int
  {
    if s == [] then 0 else Base * Value(s[..|s| - 1]) + DigitValue(s[|s| - 1])
  }

  /** A leading digit is worth 5 to the power of the digits after it. */
  lemma {:induction false} ValueCons(c: char, u: seq<char>)
    ensures Value([c] + u) == DigitValue(c) * Pow(|u|) + Value(u)
    decreases |u|
  {
    if u != [] {
      var u' := u[..|u| - 1];
      assert ([c] + u)[..|u|] == [c] + u';
      ValueCons(c, u');
      assert Value([c] + u) == Base * (DigitValue(c) * Pow(|u'|) + Value(u')) + DigitValue(u[|u| - 1]);
    }
  }

  /** What `fromDecimal` produces: the five digits only, and no leading '0'. */
  predicate Canonical(s: seq<char>)
  {
    && (forall i :: 0 <= i < |s| ==> s[i] in Digits)
    && (|s| > 0 ==> s[0] != '0')
  }

  /** The numbers `fromDecimal` can write in `width` digits: those that are
    * less than half of 5^width in size. */
  predicate Fits(n: int, width: nat)
  {
    -Pow(width) < 2 * n < Pow(width)
  }

  /** `k` digits of the five write the numbers of size at most
    * `(5^k - 1) / 2`, and `k` of them with a non-zero lead write only
    * numbers above `(5^(k-1) - 1) / 2` in size. */
  lemma {:induction false} ValueBounds(s: seq<char>)
    requires Canonical(s)
    ensures Fits(Value(s), |s|)
    ensures |s| > 0 ==> 2 * Abs(Value(s)) > Pow(|s| - 1)
    decreases |s|
  {
    if s != [] {
      var p := s[..|s| - 1];
      var c := s[|s| - 1];
      assert Canonical(p) by {
        assert forall i :: 0 <= i < |p| ==> p[i] == s[i];
      }
      ValueBounds(p);
      assert Value(s) == Base * Value(p) + DigitValue(c);
      if p == [] {
        assert s == [c];
        assert c in Digits && c != '0';
      }
    }
  }

  /** A shorter canonical string stands for a smaller number in size. */
  lemma Shorter(s: seq<char>, t: seq<char>)
    requires Canonical(s) && Canonical(t) && |s| < |t|
    ensures Abs(Value(s)) < Abs(Value(t))
  {
    ValueBounds(s);
    ValueBounds(t);
    PowGrows(|s|, |t| - 1);
  }

  /** The last digit of a balanced base-5 number is fixed by the number. */
  lemma LastDigit(a: int, b: int, da: int, db: int)
    requires -2 <= da <= 2 && -2 <= db <= 2 && Base * a + da == Base * b + db
    ensures a == b && da == db
  {
  }

  /** The five digits have five different values. */
  lemma DigitInjective(c: char, d: char)
    requires c in Digits && d in Digits && DigitValue(c) == DigitValue(d)
    ensures c == d
  {
  }

  /** Two canonical strings for the same number are the same string. */
  lemma {:induction false} Unique(s: seq<char>, t: seq<char>)
    requires Canonical(s) && Canonical(t) && Value(s) == Value(t)
    ensures s == t
    decreases |s|
  {
    if |s| < |t| {
      Shorter(s, t);
    } else if |t| < |s| {
      Shorter(t, s);
    } else if s != [] {
      var ps, pt := s[..|s| - 1], t[..|t| - 1];
      var cs, ct := s[|s| - 1], t[|t| - 1];
      LastDigit(Value(ps), Value(pt), DigitValue(cs), DigitValue(ct));
      DigitInjective(cs, ct);
      assert Canonical(ps) by {
        assert forall i :: 0 <= i < |ps| ==> ps[i] == s[i];
      }
      assert Canonical(pt) by {
        assert forall i :: 0 <= i < |pt| ==> pt[i] == t[i];
      }
      Unique(ps, pt);
      assert s == ps + [cs] && t == pt + [ct];
    }
  }

  /** The only canonical string for 0 is the empty one, so `fromDecimal(0)`
    * writes nothing. */
  lemma Zero(s: seq<char>)
    requires Canonical(s) && Value(s) == 0
    ensures s == []
  {
    Unique(s, []);
  }

  /** `toDecimal`: the digits from the right, each weighted by its power of
    * five. */
  method ToDecimal(input: seq<char>) returns (decimal: int)
    ensures decimal == Value(input)
  {
    decimal := 0;
    for idx := 0 to |input|
      invariant decimal == Value(input[|input| - idx..])
    {
      var digit := input[|input| - 1 - idx];
      var idxValue := Pow(idx);
      if digit == '2' {
        decimal := decimal + 2 * idxValue;
      } else if digit == '1' {
        decimal := decimal + idxValue;
      } else if digit == '-' {
        decimal := decimal - idxValue;
      } else if digit == '=' {
        decimal := decimal - 2 * idxValue;
      }
      assert input[|input| - 1 - idx..] == [digit] + input[|input| - idx..];
      ValueCons(digit, input[|input| - idx..]);
    }
  }

  /** `Math.round(r / p)` for an odd `p`, where no quotient lies half way. */
  function Round(r: int, p: int): int
    requires p >= 1
  {
    (2 * r + p) / (2 * p)
  }

  lemma DivBelow(a: int, n: int, k: int)
    requires n >= 1 && a < k * n
    ensures a / n < k
  {
    var q := a / n;
    assert a == q * n + a % n;
    MulNonNeg(q - k, n);
  }

  lemma DivAbove(a: int, n: int, k: int)
    requires n >= 1 && a >= k * n
    ensures a / n >= k
  {
    var q := a / n;
    assert a == q * n + a % n;
    MulNonNeg(k - q - 1, n);
  }

  /** The rounded count is one of the five digits exactly when `r` is less
    * than two and a half `p` in size. */
  lemma RoundRange(r: int, p: int)
    requires p >= 1 && p % 2 == 1
    ensures -2 <= Round(r, p) <= 2 <==> -5 * p < 2 * r < 5 * p
  {
    var n, a := 2 * p, 2 * r + p;
    assert 2 * r != -5 * p by {
      assert p == 2 * (p / 2) + 1;
    }
    if 2 * r < -5 * p {
      DivBelow(a, n, -2);
    } else if 2 * r >= 5 * p {
      DivAbove(a, n, 3);
    } else {
      DivBelow(a, n, 3);
      DivAbove(a, n, -2);
    }
  }

  /** What the rounded count leaves is less than half of `p` in size. */
  lemma RoundRest(r: int, p: int)
    requires p >= 1 && p % 2 == 1
    ensures -p < 2 * (r - Round(r, p) * p) < p
  {
    var n, a := 2 * p, 2 * r + p;
    var c, m := a / n, a % n;
    var h := p / 2;
    assert p == 2 * h + 1;
    assert a == c * n + m && 0 <= m < n;
    assert 2 * (r - c * p) == m - p;
    assert m != 0 by {
      assert m == 2 * (r - c * p + h) + 1;
    }
  }

  /** `remainder -= counts * idxValue` keeps the input equal to the
    * remainder plus what the digits so far are worth. */
  lemma Shift(input: int, remainder: int, v: int, counts: int, p: int)
    requires input == remainder + v * (Base * p)
    ensures input == (remainder - counts * p) + (Base * v + counts) * p
  {
  }

  /** Pushing one of the five digits, other than a leading '0', keeps the
    * string canonical and shifts its value one position. */
  lemma Push(s: seq<char>, c: char)
    requires Canonical(s) && c in Digits && (s != [] || c != '0')
    ensures Canonical(s + [c]) && Value(s + [c]) == Base * Value(s) + DigitValue(c)
  {
    assert (s + [c])[..|s|] == s;
  }

  /** `fromDecimal` over `width` digit positions: each position takes the
    * rounded count of its power of five, a count outside the five digits
    * is an error, and zeros before the first other digit are dropped. */
  method Encode(input: int, width: nat) returns (r: Result<seq<char>>)
    requires width >= 1
    ensures r.Success? <==> Fits(input, width)
    ensures r.Success? ==> Canonical(r.value) && Value(r.value) == input
  {
    var snafu: seq<char> := [];
    var remainder := input;
    var k := width;
    while k > 0
      invariant 0 <= k <= width
      invariant input == remainder + Value(snafu) * Pow(k)
      invariant Canonical(snafu)
      invariant k < width ==> Fits(input, width) && -Pow(k) < 2 * remainder < Pow(k)
      invariant k == width ==> remainder == input
    {
      var idxValue := Pow(k - 1);
      PowOdd(k - 1);
      RoundRange(remainder, idxValue);
      RoundRest(remainder, idxValue);
      var counts := Round(remainder, idxValue);
      ghost var before := snafu;
      Shift(input, remainder, Value(snafu), counts, idxValue);
      if counts != 0 {
        remainder := remainder - counts * idxValue;
      }
      if counts == 2 {
        Push(snafu, '2');
        snafu := snafu + ['2'];
      } else if counts == 1 {
        Push(snafu, '1');
        snafu := snafu + ['1'];
      } else if counts == 0 {
        if |snafu| > 0 {
          Push(snafu, '0');
          snafu := snafu + ['0'];
        }
      } else if counts == -1 {
        Push(snafu, '-');
        snafu := snafu + ['-'];
      } else if counts == -2 {
        Push(snafu, '=');
        snafu := snafu + ['='];
      } else {
        return Failure("Unexpected counts");
      }
      assert Value(snafu) == Base * Value(before) + counts;
      k := k - 1;
    }
    return Success(snafu);
  }

  /** `fromDecimal`: the canonical SNAFU string of `input`, or an error when
    * the 101 positions from 5^100 down cannot hold it. */
  method FromDecimal(input: int) returns (r: Result<seq<char>>)
    ensures r.Success? <==> Fits(input, Width)
    ensures r.Success? ==> Canonical(r.value) && Value(r.value) == input
  {
    r := Encode(input, Width);
  }

  /** The values of the numbers, each as `toDecimal` reads it. */
  function Values(numbers: seq<seq<char>>): (r: seq<int>)
    ensures |r| == |numbers|
    ensures forall i :: 0 <= i < |r| ==> r[i] == Value(numbers[i])
  {
    if numbers == [] then [] else Values(numbers[..|numbers| - 1]) + [Value(numbers[|numbers| - 1])]
  }

  /** Part 1: the sum of the numbers, written in SNAFU. */
  method Part1(numbers: seq<seq<char>>) returns (r: Result<seq<char>>)
    ensures r.Success? <==> Fits(Sum(Values(numbers)), Width)
    ensures r.Success? ==> Canonical(r.value) && Value(r.value) == Sum(Values(numbers))
  {
    var total := 0;
    for i := 0 to |numbers|
      invariant total == Sum(Values(numbers[..i]))
    {
      var d := ToDecimal(numbers[i]);
      assert Values(numbers[..i + 1]) == Values(numbers[..i]) + [d];
      total := total + d;
    }
    assert numbers[..|numbers|] == numbers;
    r := FromDecimal(total);
  }
}
