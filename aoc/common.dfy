/** Shared vocabulary of the puzzle solvers: optional values, the lodash
    sequence helpers they lean on (sum, max, range, join), and integer
    extrema over sequences and sets. */
module Common {

  datatype Option<+T> = None | Some(value: T)

  /** A thrown error, or a value. */
  datatype Result<+T> = Failure(message: string) | Success(value: T)

  /** lodash `sum` */
  function Sum(s: seq<int>): int
  {
    if s == [] then 0 else Sum(s[..|s| - 1]) + s[|s| - 1]
  }

  lemma {:induction false} SumAppend(s: seq<int>, t: seq<int>)
    ensures Sum(s + t) == Sum(s) + Sum(t)
  {
    if t == [] {
      assert s + t == s;
    } else {
      assert (s + t)[..|s + t| - 1] == s + t[..|t| - 1];
      SumAppend(s, t[..|t| - 1]);
    }
  }

  lemma {:induction false} SumNonNegative(s: seq<int>)
    requires forall i :: 0 <= i < |s| ==> s[i] >= 0
    ensures Sum(s) >= 0
  {
    if s != [] {
      SumNonNegative(s[..|s| - 1]);
    }
  }

  /** The number of elements of `s` equal to `x` (lodash `countBy`). */
  function Count<T(==)>(s: seq<T>, x: T): (n: nat)
    ensures n <= |s|
  {
    if s == [] then 0 else Count(s[..|s| - 1], x) + (if s[|s| - 1] == x then 1 else 0)
  }

  ghost predicate IsMax(m: int, s: seq<int>)
  {
    m in s && forall i :: 0 <= i < |s| ==> s[i] <= m
  }

  /** lodash `max` over a non-empty sequence. */
  function Max(s: seq<int>): (m: int)
    requires s != []
    ensures IsMax(m, s)
  {
    if |s| == 1 then s[0]
    else
      var m' := Max(s[..|s| - 1]);
      assert s == s[..|s| - 1] + [s[|s| - 1]];
      if s[|s| - 1] > m' then s[|s| - 1] else m'
  }

  function Min(s: seq<int>): (m: int)
    requires s != []
    ensures m in s && forall i :: 0 <= i < |s| ==> m <= s[i]
  {
    if |s| == 1 then s[0]
    else
      var m' := Min(s[..|s| - 1]);
      assert s == s[..|s| - 1] + [s[|s| - 1]];
      if s[|s| - 1] < m' then s[|s| - 1] else m'
  }

  ghost predicate IsSetMin(m: int, s: set<int>)
  {
    m in s && forall v :: v in s ==> m <= v
  }

  ghost predicate IsSetMax(m: int, s: set<int>)
  {
    m in s && forall v :: v in s ==> v <= m
  }

  /** The integers lo, lo + 1, ..., hi - 1. */
  function Interval(lo: int, hi: int): (r: seq<int>)
    ensures |r| == if lo < hi then hi - lo else 0
    ensures forall i :: 0 <= i < |r| ==> r[i] == lo + i
    decreases hi - lo
  {
    if lo < hi then [lo] + Interval(lo + 1, hi) else []
  }

  /** lodash `range(start, end)`: the step is 1 when start < end and -1
      otherwise; the end is excluded. */
  function LodashRange(start: int, end: int): (r: seq<int>)
    decreases if start < end then end - start else start - end
  {
    if start == end then []
    else if start < end then [start] + LodashRange(start + 1, end)
    else [start] + LodashRange(start - 1, end)
  }

  lemma {:induction false} LodashRangeAscending(start: int, end: int)
    requires start <= end
    ensures LodashRange(start, end) == Interval(start, end)
    decreases end - start
  {
    if start < end {
      LodashRangeAscending(start + 1, end);
    }
  }

  /** lodash `range` has |end - start| entries, stepping up from `start`
      when it is below `end` and down otherwise. */
  lemma {:induction false} LodashRangeEntries(start: int, end: int)
    ensures |LodashRange(start, end)| == if start <= end then end - start else start - end
    ensures forall k :: 0 <= k < |LodashRange(start, end)| ==>
      LodashRange(start, end)[k] == if start < end then start + k else start - k
    decreases if start < end then end - start else start - end
  {
    if start < end {
      LodashRangeEntries(start + 1, end);
    } else if start > end {
      LodashRangeEntries(start - 1, end);
    }
  }

  /** `Array.prototype.join` over strings. */
  function Join(parts: seq<string>, sep: string): (r: string)
  {
    if parts == [] then ""
    else if |parts| == 1 then parts[0]
    else parts[0] + sep + Join(parts[1..], sep)
  }

  /** Concatenation of a sequence of strings (`join("")`). */
  function Concat(parts: seq<string>): string
  {
    if parts == [] then "" else parts[0] + Concat(parts[1..])
  }

  function Abs(x: int): (r: nat)
    ensures r == x || r == -x
  {
    if x < 0 then -x else x
  }

  function Sign(x: int): (r: int)
    ensures -1 <= r <= 1
    ensures (r < 0 <==> x < 0) && (r > 0 <==> x > 0)
  {
    if x < 0 then -1 else if x > 0 then 1 else 0
  }

  /** `String.prototype.split(sep)` for a non-empty separator: the pieces
      between the leftmost non-overlapping occurrences of `sep`. */
  function Split(s: string, sep: string): (r: seq<string>)
    requires sep != []
    ensures r != []
  {
    SplitAfter(s, sep, "")
  }

  /** `Split` of `s` when `piece` has already been read into the first piece. */
  function SplitAfter(s: string, sep: string, piece: string): (r: seq<string>)
    requires sep != []
    ensures r != []
    decreases |s|
  {
    if |s| < |sep| then [piece + s]
    else if s[..|sep|] == sep then [piece] + SplitAfter(s[|sep|..], sep, "")
    else SplitAfter(s[1..], sep, piece + [s[0]])
  }

  lemma {:induction false} SplitAfterJoin(s: string, sep: string, piece: string)
    requires sep != []
    ensures Join(SplitAfter(s, sep, piece), sep) == piece + s
    decreases |s|
  {
    if |s| < |sep| {
    } else if s[..|sep|] == sep {
      SplitAfterJoin(s[|sep|..], sep, "");
      var rest := SplitAfter(s[|sep|..], sep, "");
      assert ([piece] + rest)[1..] == rest;
      assert s == sep + s[|sep|..];
    } else {
      SplitAfterJoin(s[1..], sep, piece + [s[0]]);
      assert piece + [s[0]] + s[1..] == piece + s;
    }
  }

  /** Splitting and joining with the same separator gives the string back. */
  lemma SplitJoin(s: string, sep: string)
    requires sep != []
    ensures Join(Split(s, sep), sep) == s
  {
    SplitAfterJoin(s, sep, "");
  }

  /** The non-empty strings of `s`, in order (`filter(identity)`). */
  function NonEmpty(s: seq<string>): (r: seq<string>)
    ensures |r| <= |s|
    ensures forall i :: 0 <= i < |r| ==> r[i] != [] && r[i] in s
    ensures forall x :: x in s && x != [] ==> x in r
  {
    if s == [] then []
    else if s[0] == [] then NonEmpty(s[1..])
    else [s[0]] + NonEmpty(s[1..])
  }

  /** JavaScript `indexOf`: the first index of `s` holding `ch`, or -1. */
  function IndexOf(s: string, ch: char): (r: int)
    ensures r == -1 || (0 <= r < |s| && s[r] == ch)
  {
    if s == [] then -1
    else if s[0] == ch then 0
    else var r := IndexOf(s[1..], ch); if r == -1 then -1 else r + 1
  }

  lemma {:induction false} IndexOfMeaning(s: string, ch: char)
    ensures IndexOf(s, ch) == -1 ==> forall k :: 0 <= k < |s| ==> s[k] != ch
    ensures IndexOf(s, ch) != -1 ==> forall k :: 0 <= k < IndexOf(s, ch) ==> s[k] != ch
  {
    if s != [] && s[0] != ch {
      IndexOfMeaning(s[1..], ch);
      assert forall k :: 1 <= k < |s| ==> s[k] == s[1..][k - 1];
    }
  }

  ghost predicate SortedAsc(s: seq<int>)
  {
    forall i, j :: 0 <= i < j < |s| ==> s[i] <= s[j]
  }

  function Insert(x: int, s: seq<int>): (r: seq<int>)
    requires SortedAsc(s)
    ensures SortedAsc(r) && |r| == |s| + 1
    ensures multiset(r) == multiset(s) + multiset{x}
    ensures r[0] == if s == [] || x <= s[0] then x else s[0]
  {
    if s == [] || x <= s[0] then
      [x] + s
    else
      var t := Insert(x, s[1..]);
      assert s == [s[0]] + s[1..];
      [s[0]] + t
  }

  /** lodash `sortBy(s, identity)` on numbers: ascending, the same elements. */
  function Sort(s: seq<int>): (r: seq<int>)
    ensures SortedAsc(r) && |r| == |s|
    ensures multiset(r) == multiset(s)
  {
    if s == [] then []
    else
      assert s == [s[0]] + s[1..];
      Insert(s[0], Sort(s[1..]))
  }

  /** The last of a sorted permutation is in the original and no entry
      of it is larger. */
  lemma LastIsMax(sorted: seq<int>, xs: seq<int>)
    requires sorted != [] && SortedAsc(sorted) && multiset(sorted) == multiset(xs)
    ensures exists i :: 0 <= i < |xs| && xs[i] == sorted[|sorted| - 1]
    ensures forall k :: 0 <= k < |xs| ==> xs[k] <= sorted[|sorted| - 1]
  {
    var last := sorted[|sorted| - 1];
    assert last in multiset(xs) by { assert last in multiset(sorted); }
    forall k | 0 <= k < |xs|
      ensures xs[k] <= last
    {
      assert xs[k] in multiset(sorted) by { assert xs[k] in multiset(xs); }
      var p :| 0 <= p < |sorted| && sorted[p] == xs[k];
    }
  }

  lemma MultisetCancel(m1: multiset<int>, m2: multiset<int>, a: int)
    requires m1 + multiset{a} == m2 + multiset{a}
    ensures m1 == m2
  {
    forall x
      ensures m1[x] == m2[x]
    {
      assert (m1 + multiset{a})[x] == (m2 + multiset{a})[x];
    }
  }

  /** The largest of a sorted permutation sits at some index `i` of the
      original; the original without index `i` is a permutation of the
      sorted sequence without its last entry. */
  lemma RemoveLargest(xs: seq<int>, sorted: seq<int>) returns (i: nat)
    requires sorted != [] && SortedAsc(sorted) && multiset(sorted) == multiset(xs)
    ensures i < |xs| && xs[i] == sorted[|sorted| - 1]
    ensures forall k :: 0 <= k < |xs| ==> xs[k] <= xs[i]
    ensures multiset(xs[..i] + xs[i + 1..]) == multiset(sorted[..|sorted| - 1])
  {
    var n := |sorted|;
    var a := sorted[n - 1];
    LastIsMax(sorted, xs);
    i :| 0 <= i < |xs| && xs[i] == a;
    var rest := xs[..i] + xs[i + 1..];
    assert xs == xs[..i] + [a] + xs[i + 1..];
    var init := sorted[..n - 1];
    assert sorted == init + [a];
    assert multiset(xs) == multiset(rest) + multiset{a};
    assert multiset(sorted) == multiset(init) + multiset{a};
    MultisetCancel(multiset(rest), multiset(init), a);
  }

  /** `a` is the largest entry of `s` and `b` the largest of the others. */
  ghost predicate IsTopTwo(s: seq<int>, a: int, b: int)
  {
    exists i, j ::
      && 0 <= i < |s| && 0 <= j < |s| && i != j && s[i] == a && s[j] == b && b <= a
      && forall k :: 0 <= k < |s| && k != i && k != j ==> s[k] <= b
  }

  /** The last two entries of a sorted permutation are the largest entry
      and the largest of the others. */
  lemma SortedTopTwo(counts: seq<int>, sorted: seq<int>)
    requires |counts| >= 2 && |sorted| == |counts|
    requires SortedAsc(sorted) && multiset(sorted) == multiset(counts)
    ensures IsTopTwo(counts, sorted[|sorted| - 1], sorted[|sorted| - 2])
  {
    var n := |sorted|;
    var i := RemoveLargest(counts, sorted);
    var rest := counts[..i] + counts[i + 1..];
    var init := sorted[..n - 1];
    var j' := RemoveLargest(rest, init);
    var j := if j' < i then j' else j' + 1;
    assert counts[j] == rest[j'];
    forall k | 0 <= k < |counts| && k != i && k != j
      ensures counts[k] <= counts[j] <= counts[i]
    {
      var k' := if k < i then k else k - 1;
      assert rest[k'] == counts[k];
    }
    assert counts[j] <= counts[i];
  }

  predicate IsDigit(c: char)
  {
    '0' <= c <= '9'
  }

  /** The value of a string of decimal digits. */
  function DigitsValue(s: string): nat
    requires forall i :: 0 <= i < |s| ==> IsDigit(s[i])
  {
    if s == [] then 0
    else
      assert IsDigit(s[|s| - 1]);
      10 * DigitsValue(s[..|s| - 1]) + (s[|s| - 1] as int - '0' as int)
  }

  /** The length of the longest prefix of `s` made of digits. */
  function DigitPrefix(s: string): (k: nat)
    ensures k <= |s|
    ensures forall i :: 0 <= i < k ==> IsDigit(s[i])
    ensures k < |s| ==> !IsDigit(s[k])
  {
    if s == [] || !IsDigit(s[0]) then 0 else 1 + DigitPrefix(s[1..])
  }

  /** The characters `parseInt` skips at the start: JavaScript's white space
      (tab, vertical tab, form feed, the space separators and the byte order
      mark) and line terminators. */
  predicate IsJsSpace(c: char)
  {
    c == '\t' || c == '\n' || c == '\U{000B}' || c == '\U{000C}' || c == '\r' || c == ' '
    || c == '\U{00A0}' || c == '\U{1680}' || ('\U{2000}' <= c <= '\U{200A}') || c == '\U{2028}'
    || c == '\U{2029}' || c == '\U{202F}' || c == '\U{205F}' || c == '\U{3000}' || c == '\U{FEFF}'
  }

  /** `s` without its leading white space. */
  function TrimStart(s: string): (r: string)
    ensures |r| <= |s| && (r == [] || !IsJsSpace(r[0]))
  {
    if s != [] && IsJsSpace(s[0]) then TrimStart(s[1..]) else s
  }

  predicate IsHexDigit(c: char)
  {
    IsDigit(c) || 'a' <= c <= 'f' || 'A' <= c <= 'F'
  }

  function HexDigitValue(c: char): (v: nat)
    requires IsHexDigit(c)
    ensures v < 16
  {
    if IsDigit(c) then c as int - '0' as int
    else if 'a' <= c <= 'f' then c as int - 'a' as int + 10
    else c as int - 'A' as int + 10
  }

  /** The value of a string of hexadecimal digits. */
  function HexValue(s: string): nat
    requires forall i :: 0 <= i < |s| ==> IsHexDigit(s[i])
  {
    if s == [] then 0
    else
      assert IsHexDigit(s[|s| - 1]);
      16 * HexValue(s[..|s| - 1]) + HexDigitValue(s[|s| - 1])
  }

  /** The length of the longest prefix of `s` made of hexadecimal digits. */
  function HexPrefix(s: string): (k: nat)
    ensures k <= |s|
    ensures forall i :: 0 <= i < k ==> IsHexDigit(s[i])
    ensures k < |s| ==> !IsHexDigit(s[k])
  {
    if s == [] || !IsHexDigit(s[0]) then 0 else 1 + HexPrefix(s[1..])
  }

  predicate HasHexPrefix(u: string)
  {
    |u| >= 2 && u[0] == '0' && (u[1] == 'x' || u[1] == 'X')
  }

  /** The magnitude `parseInt` reads after the sign: after "0x" or "0X" the
      longest run of hexadecimal digits, otherwise the longest run of decimal
      digits; NaN (None) when that run is empty. */
  function ParseMagnitude(u: string): Option<nat>
  {
    if HasHexPrefix(u) then
      var k := HexPrefix(u[2..]);
      if k == 0 then None else Some(HexValue(u[2..][..k]))
    else
      var k := DigitPrefix(u);
      if k == 0 then None else Some(DigitsValue(u[..k]))
  }

  /** `parseInt(s)` with no radix: leading white space skipped, an optional
      sign, then a magnitude in base 16 after a "0x" or "0X" prefix and in
      base 10 otherwise; NaN (None) when there are no digits. */
  function ParseInt(s: string): (r: Option<int>)
  {
    var t := TrimStart(s);
    if t != [] && (t[0] == '-' || t[0] == '+') then
      match ParseMagnitude(t[1..])
      case None => None
      case Some(m) => if t[0] == '-' then Some(0 - m) else Some(m)
    else
      match ParseMagnitude(t)
      case None => None
      case Some(m) => Some(m)
  }

  /** Without a radix, a "0x" prefix switches `parseInt` to base 16. */
  lemma HexPrefixRead()
    ensures ParseInt("0x1F") == Some(31)
  {
    assert TrimStart("0x1F") == "0x1F";
    assert HexPrefix("1F") == 2 by {
      assert "1F"[1..] == "F" && "F"[1..] == [];
    }
    assert "0x1F"[2..] == "1F" && "1F"[..2] == "1F";
    assert HexValue("1F") == 31 by {
      assert "1F"[..1] == "1" && "1"[..0] == [];
    }
  }

  /** The prefix is also read after white space and a sign, and the digits
      stop at the first character that is not hexadecimal. */
  lemma HexPrefixSigned()
    ensures ParseInt(" -0Xag") == Some(-10)
  {
    assert TrimStart(" -0Xag") == "-0Xag" by {
      assert " -0Xag"[1..] == "-0Xag";
    }
    assert "-0Xag"[1..] == "0Xag" && "0Xag"[2..] == "ag";
    assert HexPrefix("ag") == 1 by {
      assert "ag"[1..] == "g";
    }
    assert "ag"[..1] == "a" && "a"[..0] == [];
  }

  /** "0x" with no hexadecimal digit after it is NaN, not 0. */
  lemma HexPrefixAlone()
    ensures ParseInt("0x") == None
  {
    assert TrimStart("0x") == "0x";
    assert "0x"[2..] == [];
  }

  /** The decimal digits of `n`, without leading zeros (`String(n)`). */
  function ShowNat(n: nat): (r: string)
    ensures r != []
    ensures forall i :: 0 <= i < |r| ==> IsDigit(r[i])
  {
    if n < 10 then [('0' as int + n) as char]
    else ShowNat(n / 10) + [('0' as int + n % 10) as char]
  }

  lemma {:induction false} ShowNatValue(n: nat)
    ensures DigitsValue(ShowNat(n)) == n
  {
    if n >= 10 {
      ShowNatValue(n / 10);
      var r := ShowNat(n);
      assert r[..|r| - 1] == ShowNat(n / 10);
    }
  }

  /** `parseInt(String(n))` is `n`. */
  lemma ParseShow(n: nat)
    ensures ParseInt(ShowNat(n)) == Some(n)
  {
    var r := ShowNat(n);
    assert TrimStart(r) == r by { assert IsDigit(r[0]); }
    assert DigitPrefix(r) == |r| by {
      DigitPrefixAll(r);
    }
    assert r[..|r|] == r;
    ShowNatValue(n);
  }

  /** `parseInt("-" + String(n))` is `-n`. */
  lemma ParseShowNegative(n: nat)
    ensures ParseInt("-" + ShowNat(n)) == Some(-(n as int))
  {
    var r := ShowNat(n);
    var t := "-" + r;
    assert TrimStart(t) == t;
    assert t[1..] == r;
    DigitPrefixAll(r);
    assert r[..|r|] == r;
    ShowNatValue(n);
  }

  lemma {:induction false} DigitPrefixAll(s: string)
    requires forall i :: 0 <= i < |s| ==> IsDigit(s[i])
    ensures DigitPrefix(s) == |s|
  {
    if s != [] {
      DigitPrefixAll(s[1..]);
    }
  }

  /** Division with a remainder in [0, n) has one answer. */
  lemma ModUnique(x: int, n: int, q: int, r: int)
    requires n >= 1 && 0 <= r < n && x == q * n + r
    ensures x % n == r && x / n == q
  {
    var q0, r0 := x / n, x % n;
    assert x == q0 * n + r0;
    var d := q - q0;
    assert d * n == r0 - r by {
      assert q * n - q0 * n == (q - q0) * n;
    }
    MulNonNeg(d - 1, n);
    MulNonNeg(-d - 1, n);
  }

  lemma MulNonNeg(a: int, b: int)
    ensures a >= 0 && b >= 0 ==> a * b >= 0
  {
  }

  // ---------------------------------------------------------------------------
  // JavaScript numbers and lodash `sum`
  // ---------------------------------------------------------------------------

  /** A JavaScript number as the solvers can produce it: an integer, or NaN
    * (from adding `undefined`, say). */
  datatype Num = Finite(n: int) | NaN

  function AddNums(a: Num, b: Num): Num
  {
    if a.Finite? && b.Finite? then Finite(a.n + b.n) else NaN
  }

  /** The sum of numbers, NaN as soon as one is NaN. */
  function SumNums(xs: seq<Num>): Num
  {
    if xs == [] then Finite(0) else AddNums(SumNums(xs[..|xs| - 1]), xs[|xs| - 1])
  }

  /** The sum is a number exactly when every term is. */
  lemma {:induction false} SumNumsFinite(xs: seq<Num>)
    ensures SumNums(xs).Finite? <==> forall k :: 0 <= k < |xs| ==> xs[k].Finite?
  {
    if xs != [] {
      SumNumsFinite(xs[..|xs| - 1]);
      assert forall k :: 0 <= k < |xs| - 1 ==> xs[..|xs| - 1][k] == xs[k];
    }
  }

  /** The defined values, in order. */
  function Defined(xs: seq<Option<Num>>): seq<Num>
  {
    if xs == [] then []
    else
      var init := Defined(xs[..|xs| - 1]);
      if xs[|xs| - 1].Some? then init + [xs[|xs| - 1].value] else init
  }

  /** No value is defined exactly when every entry is `undefined`. */
  lemma {:induction false} DefinedEmpty(xs: seq<Option<Num>>)
    ensures Defined(xs) == [] <==> forall k :: 0 <= k < |xs| ==> xs[k].None?
  {
    if xs != [] {
      DefinedEmpty(xs[..|xs| - 1]);
      assert forall k :: 0 <= k < |xs| - 1 ==> xs[..|xs| - 1][k] == xs[k];
    }
  }

  /** Lodash `sum`: 0 for no values; otherwise it skips `undefined`, and a
    * list of only `undefined` sums to `undefined`. */
  function LodashSum(xs: seq<Option<Num>>): (r: Option<Num>)
    ensures r.Some? ==> r.value == SumNums(Defined(xs))
  {
    if xs == [] then Some(Finite(0))
    else if Defined(xs) == [] then None
    else Some(SumNums(Defined(xs)))
  }

  /** The sum is `undefined` exactly for a non-empty list of `undefined`. */
  lemma LodashSumUndefined(xs: seq<Option<Num>>)
    ensures LodashSum(xs).None? <==> xs != [] && forall k :: 0 <= k < |xs| ==> xs[k].None?
  {
    DefinedEmpty(xs);
  }
}
