/** 2022 day 6: find the first position in a signal after which the last
    `length` characters are all different. */
module Day2022_06 {
  import opened Common

  ghost predicate AllDistinct(w: seq<char>)
  {
    forall i, j :: 0 <= i < j < |w| ==> w[i] != w[j]
  }

  /** `new Set(window).size`. */
  function SetSize(w: seq<char>): nat
  {
    |set c | c in w|
  }

  lemma SetOfCons(w: seq<char>)
    requires w != []
    ensures (set c | c in w) == (set c | c in w[1..]) + {w[0]}
  {
    assert w == [w[0]] + w[1..];
    assert forall c :: c in w <==> c == w[0] || c in w[1..];
  }

  lemma DistinctCons(w: seq<char>)
    requires w != []
    ensures AllDistinct(w) <==> w[0] !in w[1..] && AllDistinct(w[1..])
  {
    var rest := w[1..];
    if w[0] in rest {
      var j :| 0 <= j < |rest| && rest[j] == w[0];
      assert w[0] == w[j + 1];
    } else if AllDistinct(rest) {
      forall i, j | 0 <= i < j < |w| ensures w[i] != w[j] {
        assert w[j] == rest[j - 1];
        if i > 0 {
          assert w[i] == rest[i - 1];
        }
      }
    } else {
      var i, j :| 0 <= i < j < |rest| && rest[i] == rest[j];
      assert w[i + 1] == w[j + 1];
    }
  }

  lemma {:induction false} SetSizeBound(w: seq<char>)
    ensures SetSize(w) <= |w|
    ensures SetSize(w) == |w| <==> AllDistinct(w)
  {
    if w != [] {
      SetSizeBound(w[1..]);
      SetOfCons(w);
      DistinctCons(w);
      if w[0] in w[1..] {
        assert (set c | c in w[1..]) + {w[0]} == (set c | c in w[1..]);
      }
    }
  }

  /** The window of `length` characters ending just before position `n`. */
  ghost predicate MarkerAt(buffer: seq<char>, length: nat, n: int)
  {
    length <= n <= |buffer| && AllDistinct(buffer[n - length..n])
  }

  /** The loop of `findMarker` from index `i`. */
  function FindFrom(buffer: seq<char>, length: nat, i: nat): (r: Result<nat>)
    requires length >= 1 && length - 1 <= i
    ensures r.Success? ==> MarkerAt(buffer, length, r.value) && r.value >= i + 1
    ensures r.Success? ==> forall m :: i + 1 <= m < r.value ==> !MarkerAt(buffer, length, m)
    ensures r.Failure? <==> forall m :: i + 1 <= m <= |buffer| ==> !MarkerAt(buffer, length, m)
    decreases |buffer| - i
  {
    if i >= |buffer| then Failure("Marker not found")
    else
      var window := buffer[i - length + 1..i + 1];
      SetSizeBound(window);
      if SetSize(window) == length then Success(i + 1)
      else FindFrom(buffer, length, i + 1)
  }

  /** `findMarker`: the position just after the first all-distinct window of
      `length` characters; an empty window (length 0) is found at once. */
  function FindMarker(buffer: seq<char>, length: nat): (r: Result<nat>)
    ensures r.Success? ==> MarkerAt(buffer, length, r.value)
    ensures r.Success? ==> forall m :: 0 <= m < r.value ==> !MarkerAt(buffer, length, m)
    ensures r.Failure? <==> forall m :: 0 <= m <= |buffer| ==> !MarkerAt(buffer, length, m)
  {
    if length == 0 then Success(0)
    else FindFrom(buffer, length, length - 1)
  }

  function Part1(buffer: seq<char>): Result<nat>
  {
    FindMarker(buffer, 4)
  }

  function Part2(buffer: seq<char>): Result<nat>
  {
    FindMarker(buffer, 14)
  }
}
