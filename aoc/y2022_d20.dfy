/** 2022 day 20: "mixing" a circular doubly linked list of numbers. Each
    entry, in input order, is unlinked and relinked a number of places
    further on given by its value; the answer adds the values 1000, 2000
    and 3000 places after the value 0. Entries are numbered by input
    position: `next[i]` and `prev[i]` are the entries linked to entry `i`,
    and the ghost `order` lists the ring from some entry on. */
module Day2022_20 {
  import opened Common

  /** The ring position after `k` among `n`. */
  function Succ(k: nat, n: nat): (r: nat)
    requires k < n
    ensures r < n
  {
    if k + 1 == n then 0 else k + 1
  }

  predicate Distinct(s: seq<nat>)
  {
    forall j, k :: 0 <= j < k < |s| ==> s[j] != s[k]
  }

  /** The links stay inside the list, and following `next` from
      `order[0]` visits `order` and comes back, with `prev` the reverse:
      the list is one ring of |order| entries, as `validateList` checks. */
  ghost predicate Ring(next: seq<nat>, prev: seq<nat>, order: seq<nat>)
  {
    && |order| >= 1 && |next| == |prev|
    && (forall i :: 0 <= i < |next| ==> next[i] < |next| && prev[i] < |next|)
    && (forall k :: 0 <= k < |order| ==> order[k] < |next|)
    && Distinct(order)
    && (forall k {:trigger next[order[k]]} :: 0 <= k < |order| ==> next[order[k]] == order[Succ(k, |order|)])
    && (forall k {:trigger prev[order[Succ(k, |order|)]]} :: 0 <= k < |order| ==> prev[order[Succ(k, |order|)]] == order[k])
  }

  /** The entries 0 .. n-1 in input order. */
  function Indices(n: nat): (r: seq<nat>)
    ensures |r| == n && forall k :: 0 <= k < n ==> r[k] == k
  {
    seq(n, k requires 0 <= k < n => k)
  }

  // ----- building and walking the ring -----

  /** The loop of `part1` that links entry `idx` to its neighbours in
      input order, the last to the first. */
  method Link(n: nat) returns (next: seq<nat>, prev: seq<nat>)
    requires n >= 1
    ensures |next| == n && |prev| == n
    ensures Ring(next, prev, Indices(n))
  {
    next, prev := [], [];
    for idx := 0 to n
      invariant |next| == idx && |prev| == idx
      invariant forall i :: 0 <= i < idx ==> next[i] == Succ(i, n)
      invariant forall i :: 0 <= i < idx ==> prev[i] == if i == 0 then n - 1 else i - 1
    {
      prev := prev + [if idx == 0 then n - 1 else idx - 1];
      next := next + [if idx == n - 1 then 0 else idx + 1];
    }
    var order := Indices(n);
    forall k | 0 <= k < n
      ensures prev[order[Succ(k, n)]] == order[k]
    {
    }
  }

  /** `next` followed `distance` times from `entry`. */
  function Forward(next: seq<nat>, entry: nat, distance: nat): nat
    requires entry < |next| && forall i :: 0 <= i < |next| ==> next[i] < |next|
    ensures Forward(next, entry, distance) < |next|
  {
    if distance == 0 then entry else next[Forward(next, entry, distance - 1)]
  }

  /** `moveForward` */
  method MoveForward(next: seq<nat>, entry: nat, distance: nat) returns (current: nat)
    requires entry < |next| && forall i :: 0 <= i < |next| ==> next[i] < |next|
    ensures current == Forward(next, entry, distance)
  {
    current := entry;
    for i := 0 to distance
      invariant current == Forward(next, entry, i)
    {
      current := next[current];
    }
  }

  /** `k` counted round a ring of `n`, that is `k` modulo `n`. */
  function Around(k: nat, n: nat): (r: nat)
    requires n >= 1
    ensures r < n
    decreases k
  {
    if k < n then k else Around(k - n, n)
  }

  lemma {:induction false} AroundSucc(k: nat, n: nat)
    requires n >= 1
    ensures Around(k + 1, n) == Succ(Around(k, n), n)
    decreases k
  {
    if k >= n {
      AroundSucc(k - n, n);
    }
  }

  lemma {:induction false} AroundAdd(k: nat, d: nat, n: nat)
    requires n >= 1
    ensures Around(Around(k, n) + d, n) == Around(k + d, n)
    decreases k
  {
    if k >= n {
      AroundAdd(k - n, d, n);
      assert Around(k + d, n) == Around(k - n + d, n);
    }
  }

  /** In a ring, walking `d` links on from the `k`-th entry reaches the
      entry `d` places further round. */
  lemma {:induction false} ForwardInRing(next: seq<nat>, prev: seq<nat>, order: seq<nat>, k: nat, d: nat)
    requires Ring(next, prev, order) && k < |order|
    ensures Forward(next, order[k], d) == order[Around(k + d, |order|)]
  {
    if d > 0 {
      ForwardInRing(next, prev, order, k, d - 1);
      AroundSucc(k + d - 1, |order|);
    }
  }

  // ----- relinking -----

  /** The ring read from position `p` on. */
  function Rotate(order: seq<nat>, p: nat): (r: seq<nat>)
    requires p < |order|
    ensures |r| == |order| && multiset(r) == multiset(order)
  {
    assert order == order[..p] + order[p..];
    order[p..] + order[..p]
  }

  /** A ring read from any entry on is the same ring. */
  lemma RotateRing(next: seq<nat>, prev: seq<nat>, order: seq<nat>, p: nat)
    requires Ring(next, prev, order) && p < |order|
    ensures Ring(next, prev, Rotate(order, p))
  {
    var n, r := |order|, Rotate(order, p);
    forall k | 0 <= k < n
      ensures r[k] == order[Wrap(p + k, n)]
    {
      if k < n - p {
        assert r[k] == order[p + k];
      } else {
        assert r[k] == order[k - (n - p)];
      }
    }
    forall j, k | 0 <= j < k < n
      ensures r[j] != r[k]
    {
      assert Wrap(p + j, n) != Wrap(p + k, n);
    }
    forall k | 0 <= k < n
      ensures next[r[k]] == r[Succ(k, n)] && prev[r[Succ(k, n)]] == r[k]
    {
      assert Wrap(p + Succ(k, n), n) == Succ(Wrap(p + k, n), n);
    }
  }

  /** An index less than twice `n`, taken round a ring of `n`. */
  function Wrap(i: nat, n: nat): (r: nat)
    requires i < n + n
    ensures r < n && (r == i || r == i - n)
  {
    if i < n then i else i - n
  }

  /** `entry.next.prev = entry.prev; entry.prev.next = entry.next`: the
      first entry of the ring leaves it and the rest closes up. */
  lemma Unlink(next: seq<nat>, prev: seq<nat>, order: seq<nat>)
    requires Ring(next, prev, order) && |order| >= 2
    ensures prev[order[0]] == order[|order| - 1] && next[order[0]] == order[1]
    ensures Ring(next[prev[order[0]] := next[order[0]]], prev[next[order[0]] := prev[order[0]]], order[1..])
  {
    var n, e, rest := |order|, order[0], order[1..];
    assert prev[order[Succ(n - 1, n)]] == order[n - 1];
    assert next[order[0]] == order[Succ(0, n)];
    var next', prev' := next[prev[e] := next[e]], prev[next[e] := prev[e]];
    var m := |rest|;
    forall k | 0 <= k < m
      ensures next'[rest[k]] == rest[Succ(k, m)] && prev'[rest[Succ(k, m)]] == rest[k]
    {
      assert rest[k] == order[k + 1];
      assert next[order[k + 1]] == order[Succ(k + 1, n)];
      assert prev[order[Succ(k + 1, n)]] == order[k + 1];
    }
  }

  /** `rest` with `e` put in at position `d`. */
  function InsertAt(rest: seq<nat>, d: nat, e: nat): (r: seq<nat>)
    requires d <= |rest|
    ensures |r| == |rest| + 1 && multiset(r) == multiset(rest) + multiset{e}
  {
    assert rest == rest[..d] + rest[d..];
    rest[..d] + [e] + rest[d..]
  }

  lemma InsertAtIndex(rest: seq<nat>, d: nat, e: nat, k: nat)
    requires d <= |rest| && k <= |rest|
    ensures InsertAt(rest, d, e)[k] == if k < d then rest[k] else if k == d then e else rest[k - 1]
  {
  }

  /** `entry.prev = current; entry.next = current.next;
      current.next.prev = entry; current.next = entry`: an entry outside
      the ring joins it right after the `j`-th entry. */
  lemma Relink(next: seq<nat>, prev: seq<nat>, rest: seq<nat>, j: nat, e: nat)
    requires Ring(next, prev, rest) && j < |rest| && e < |next| && e !in rest
    ensures var c := rest[j];
      var next1, prev1 := next[e := next[c]], prev[e := c];
      Ring(next1[c := e], prev1[next1[c] := e], InsertAt(rest, j + 1, e))
  {
    var c := rest[j];
    var next1, prev1 := next[e := next[c]], prev[e := c];
    RelinkDistinct(rest, j, e);
    RelinkNext(next, prev, rest, j, e);
    RelinkPrev(next, prev, rest, j, e);
  }

  lemma RelinkDistinct(rest: seq<nat>, j: nat, e: nat)
    requires Distinct(rest) && j < |rest| && e !in rest
    ensures Distinct(InsertAt(rest, j + 1, e))
  {
    var o := InsertAt(rest, j + 1, e);
    forall a, b | 0 <= a < b < |o|
      ensures o[a] != o[b]
    {
      InsertAtIndex(rest, j + 1, e, a);
      InsertAtIndex(rest, j + 1, e, b);
    }
  }

  /** The successors after relinking. */
  lemma RelinkNext(next: seq<nat>, prev: seq<nat>, rest: seq<nat>, j: nat, e: nat)
    requires Ring(next, prev, rest) && j < |rest| && e < |next| && e !in rest
    ensures var c := rest[j];
      var o, next2 := InsertAt(rest, j + 1, e), next[e := next[c]][c := e];
      forall k :: 0 <= k < |o| ==> next2[o[k]] == o[Succ(k, |o|)]
  {
    var o := InsertAt(rest, j + 1, e);
    forall k | 0 <= k < |o|
      ensures next[e := next[rest[j]]][rest[j] := e][o[k]] == o[Succ(k, |o|)]
    {
      RelinkNextAt(next, prev, rest, j, e, k);
    }
  }

  lemma RelinkNextAt(next: seq<nat>, prev: seq<nat>, rest: seq<nat>, j: nat, e: nat, k: nat)
    requires Ring(next, prev, rest) && j < |rest| && e < |next| && e !in rest && k <= |rest|
    ensures var c := rest[j];
      var o, next2 := InsertAt(rest, j + 1, e), next[e := next[c]][c := e];
      next2[o[k]] == o[Succ(k, |o|)]
  {
    var c, m := rest[j], |rest|;
    var n := m + 1;
    InsertAtIndex(rest, j + 1, e, k);
    InsertAtIndex(rest, j + 1, e, Succ(k, n));
    if k <= j {
      assert next[rest[k]] == rest[Succ(k, m)];
    } else if k > j + 1 {
      assert next[rest[k - 1]] == rest[Succ(k - 1, m)];
    } else {
      assert next[rest[j]] == rest[Succ(j, m)];
    }
  }

  /** The predecessors after relinking. */
  lemma RelinkPrev(next: seq<nat>, prev: seq<nat>, rest: seq<nat>, j: nat, e: nat)
    requires Ring(next, prev, rest) && j < |rest| && e < |next| && e !in rest
    ensures var c := rest[j];
      var o, next1, prev1 := InsertAt(rest, j + 1, e), next[e := next[c]], prev[e := c];
      forall k :: 0 <= k < |o| ==> prev1[next1[c] := e][o[Succ(k, |o|)]] == o[k]
  {
    var o := InsertAt(rest, j + 1, e);
    forall k | 0 <= k < |o|
      ensures prev[e := rest[j]][next[e := next[rest[j]]][rest[j]] := e][o[Succ(k, |o|)]] == o[k]
    {
      RelinkPrevAt(next, prev, rest, j, e, k);
    }
  }

  lemma RelinkPrevAt(next: seq<nat>, prev: seq<nat>, rest: seq<nat>, j: nat, e: nat, k: nat)
    requires Ring(next, prev, rest) && j < |rest| && e < |next| && e !in rest && k <= |rest|
    ensures var c := rest[j];
      var o, next1, prev1 := InsertAt(rest, j + 1, e), next[e := next[c]], prev[e := c];
      prev1[next1[c] := e][o[Succ(k, |o|)]] == o[k]
  {
    var c, m := rest[j], |rest|;
    var n := m + 1;
    var a := next[c];
    assert a == rest[Succ(j, m)];
    InsertAtIndex(rest, j + 1, e, k);
    InsertAtIndex(rest, j + 1, e, Succ(k, n));
    if k < j {
      assert prev[rest[Succ(k, m)]] == rest[k];
      assert rest[k + 1] != a;
    } else if k > j + 1 {
      assert prev[rest[Succ(k - 1, m)]] == rest[k - 1];
      assert rest[Succ(k - 1, m)] != a;
    }
  }

  // ----- the mixing, on the ring's order -----

  /** JavaScript's `%`, which keeps the sign of the dividend, counted out
      with `Around`; `JsRemIsRem` shows it is the truncated remainder. */
  function JsRem(a: int, n: nat): (r: int)
    requires n >= 1
    ensures -(n as int) < r < n && (a >= 0 ==> r >= 0) && (a < 0 ==> r <= 0)
  {
    if a >= 0 then Around(a, n) else -(Around(-a, n) as int)
  }

  lemma JsRemIsRem(a: int, n: nat)
    requires n >= 1
    ensures a >= 0 ==> JsRem(a, n) == a % n
    ensures a < 0 ==> JsRem(a, n) == -((-a) % n)
  {
    if a >= 0 {
      AroundMod(a, n);
    } else {
      AroundMod(-a, n);
    }
  }

  /** The mathematical `v` modulo `m`, never negative. */
  function Modulo(v: int, m: nat): (r: nat)
    requires m >= 1
    ensures r < m
  {
    if v >= 0 then Around(v, m)
    else
      var a := Around(-v, m);
      if a == 0 then 0 else m - a
  }

  lemma ModuloIsMod(v: int, m: nat)
    requires m >= 1
    ensures Modulo(v, m) == v % m
  {
    if v >= 0 {
      AroundMod(v, m);
    } else {
      var q := AroundQuot(-v, m);
      var a := Around(-v, m);
      if a == 0 {
        assert v == (-q) * m;
        ModUnique(v, m, -q, 0);
      } else {
        assert v == (-q - 1) * m + (m - a) by {
          assert (-q - 1) * m == -(q * m) - m;
        }
        ModUnique(v, m, -q - 1, m - a);
      }
    }
  }

  /** `Around` is the remainder of Dafny's `%`. */
  lemma AroundMod(k: nat, n: nat)
    requires n >= 1
    ensures Around(k, n) == k % n
  {
    var q := AroundQuot(k, n);
    ModUnique(k, n, q, Around(k, n));
  }

  lemma {:induction false} AroundQuot(k: nat, n: nat) returns (q: nat)
    requires n >= 1
    ensures k == q * n + Around(k, n)
    decreases k
  {
    if k >= n {
      var q' := AroundQuot(k - n, n);
      q := q' + 1;
      assert q * n == q' * n + n;
    } else {
      q := 0;
    }
  }

  /** `netMove` as written: the value modulo the length of the list, a
      negative remainder shifted by length - 1. */
  function NetMove(v: int, n: nat): (d: int)
    requires n >= 1
    ensures 0 <= d < n
  {
    var m := JsRem(v, n);
    if m < 0 then JsRem(m + n - 1, n) else m
  }

  /** `Net` without the correction, as the source computes it. */
  const AsWritten := false

  /** The places the entry moves on: `NetMove`, or when `corrected`, the
      value modulo the n - 1 other entries. */
  function Net(v: int, n: nat, corrected: bool): (d: int)
    requires n >= 1
    ensures 0 <= d < n
  {
    if !corrected then NetMove(v, n)
    else if n == 1 then 0
    else Modulo(v, n - 1)
  }

  function IndexOf(order: seq<nat>, e: nat): (p: nat)
    requires e in order
    ensures p < |order| && order[p] == e
  {
    if order[0] == e then 0 else 1 + IndexOf(order[1..], e)
  }

  /** Moving entry `e` on by `d` places: read the ring from `e`, take `e`
      out and put it back after the `d`-th of the others. */
  function MixStep(order: seq<nat>, e: nat, d: nat): (r: seq<nat>)
  {
    if e in order && 0 < d < |order| then
      var rest := Rotate(order, IndexOf(order, e))[1..];
      InsertAt(rest, d, e)
    else order
  }

  /** A move keeps the entries of the ring. */
  lemma MixStepPerm(order: seq<nat>, e: nat, d: nat)
    ensures |MixStep(order, e, d)| == |order| && multiset(MixStep(order, e, d)) == multiset(order)
  {
    if e in order && 0 < d < |order| {
      var rot := Rotate(order, IndexOf(order, e));
      assert rot == [e] + rot[1..];
    }
  }

  /** The order after the first `k` entries have moved. */
  function MixUpTo(values: seq<int>, k: nat, corrected: bool): (order: seq<nat>)
    requires k <= |values|
  {
    if k == 0 then Indices(|values|)
    else MixRound(values, k - 1, MixUpTo(values, k - 1, corrected), corrected)
  }

  /** Entry `i` moves on by its net move, unless that is 0. */
  function MixRound(values: seq<int>, i: nat, order: seq<nat>, corrected: bool): (order': seq<nat>)
    requires i < |values|
  {
    var d := Net(values[i], |values|, corrected);
    if d > 0 then MixStep(order, i, d) else order
  }

  lemma MixRoundPerm(values: seq<int>, i: nat, order: seq<nat>, corrected: bool)
    requires i < |values|
    ensures |MixRound(values, i, order, corrected)| == |order|
    ensures multiset(MixRound(values, i, order, corrected)) == multiset(order)
  {
    MixStepPerm(order, i, Net(values[i], |values|, corrected));
  }

  /** However many entries have moved, the ring holds each entry once. */
  lemma {:induction false} MixUpToPerm(values: seq<int>, k: nat, corrected: bool)
    requires k <= |values|
    ensures |MixUpTo(values, k, corrected)| == |values|
    ensures multiset(MixUpTo(values, k, corrected)) == multiset(Indices(|values|))
  {
    if k > 0 {
      MixUpToPerm(values, k - 1, corrected);
      MixRoundPerm(values, k - 1, MixUpTo(values, k - 1, corrected), corrected);
    }
  }

  /** The mixing keeps every value: the ring holds the same numbers, as
      many times each. */
  lemma MixKeepsValues(values: seq<int>, corrected: bool)
    ensures multiset(Along(values, MixUpTo(values, |values|, corrected))) == multiset(values)
  {
    var n := |values|;
    MixUpToPerm(values, n, corrected);
    AlongMultiset(values, MixUpTo(values, n, corrected), Indices(n));
    assert Along(values, Indices(n)) == values;
  }

  /** The values of the entries in `order`. */
  function Along(values: seq<int>, order: seq<nat>): (r: seq<int>)
    ensures |r| == |order|
    ensures forall k :: 0 <= k < |order| && order[k] < |values| ==> r[k] == values[order[k]]
  {
    seq(|order|, k requires 0 <= k < |order| => if order[k] < |values| then values[order[k]] else 0)
  }

  lemma {:induction false} AlongMultiset(values: seq<int>, s: seq<nat>, t: seq<nat>)
    requires multiset(s) == multiset(t)
    ensures multiset(Along(values, s)) == multiset(Along(values, t))
    decreases |s|
  {
    if s != [] {
      var x := s[0];
      assert x in multiset(t);
      var i := IndexOf(t, x);
      var front, back := t[..i], t[i + 1..];
      assert t == front + [x] + back;
      assert s == [x] + s[1..];
      assert multiset(s[1..]) == multiset(s) - multiset{x};
      assert multiset(front + back) == multiset(t) - multiset{x};
      AlongMultiset(values, s[1..], front + back);
      AlongAppend(values, [x], s[1..]);
      AlongAppend(values, front + [x], back);
      AlongAppend(values, front, [x]);
      AlongAppend(values, front, back);
      calc {
        multiset(Along(values, t));
        multiset(Along(values, front) + Along(values, [x]) + Along(values, back));
        multiset(Along(values, [x])) + multiset(Along(values, front) + Along(values, back));
        multiset(Along(values, [x])) + multiset(Along(values, s[1..]));
        multiset(Along(values, s));
      }
    }
  }

  /** Looking up the values along two orders one after the other. */
  lemma AlongAppend(values: seq<int>, a: seq<nat>, b: seq<nat>)
    ensures Along(values, a + b) == Along(values, a) + Along(values, b)
  {
  }

  /** An order holding each entry once holds exactly the entries. */
  lemma Entries(order: seq<nat>, n: nat)
    requires multiset(order) == multiset(Indices(n))
    ensures forall k :: 0 <= k < |order| ==> order[k] < n
    ensures forall i :: 0 <= i < n ==> i in order
  {
    forall k | 0 <= k < |order|
      ensures order[k] < n
    {
      assert order[k] in multiset(Indices(n));
    }
    forall i | 0 <= i < n
      ensures i in order
    {
      assert Indices(n)[i] == i;
      assert i in multiset(Indices(n));
    }
  }

  // ----- the answer -----

  /** The first position of `order` whose value is 0. */
  function FirstZero(values: seq<int>, order: seq<nat>): (z: nat)
    requires forall k :: 0 <= k < |order| ==> order[k] < |values|
    requires exists k :: 0 <= k < |order| && values[order[k]] == 0
    ensures z < |order| && values[order[z]] == 0
    ensures forall k :: 0 <= k < z ==> values[order[k]] != 0
  {
    if values[order[0]] == 0 then 0
    else
      assert exists k :: 0 <= k < |order| - 1 && values[order[1..][k]] == 0 by {
        var k :| 0 <= k < |order| && values[order[k]] == 0;
        assert order[1..][k - 1] == order[k];
      }
      1 + FirstZero(values, order[1..])
  }

  /** The ring read from entry 0, as the search for the value 0 starts. */
  function FromFirst(order: seq<nat>, n: nat): (r: seq<nat>)
    requires n >= 1 && |order| == n && multiset(order) == multiset(Indices(n))
    ensures |r| == n && r[0] == 0 && multiset(r) == multiset(Indices(n))
  {
    Entries(order, n);
    Rotate(order, IndexOf(order, 0))
  }

  /** The grove coordinates: the values 1000, 2000 and 3000 places after
      the first value 0 met going round from entry 0. */
  function Grove(values: seq<int>, order: seq<nat>): int
    requires |order| == |values| && multiset(order) == multiset(Indices(|values|)) && 0 in values
  {
    var r := FromFirst(order, |values|);
    HasZero(values, r);
    GroveAt(values, r, FirstZero(values, r), 1000)
  }

  /** The values `step`, twice `step` and three times `step` places after
      the `z`-th entry of the ring read as `r`, added up. */
  function GroveAt(values: seq<int>, r: seq<nat>, z: nat, step: nat): int
    requires forall k :: 0 <= k < |r| ==> r[k] < |values|
    requires z < |r|
  {
    var n := |r|;
    values[r[Around(z + step, n)]] + values[r[Around(z + step + step, n)]] + values[r[Around(z + step + step + step, n)]]
  }

  /** The grove coordinates once every entry has moved. */
  function GroveSum(values: seq<int>, corrected: bool): int
    requires 0 in values
  {
    MixUpToPerm(values, |values|, corrected);
    Grove(values, MixUpTo(values, |values|, corrected))
  }

  /** An order of all the entries meets the value 0 when the list holds one. */
  lemma HasZero(values: seq<int>, r: seq<nat>)
    requires |r| == |values| && multiset(r) == multiset(Indices(|values|)) && 0 in values
    ensures forall k :: 0 <= k < |r| ==> r[k] < |values|
    ensures exists k :: 0 <= k < |r| && values[r[k]] == 0
  {
    var n := |values|;
    Entries(r, n);
    var i :| 0 <= i < n && values[i] == 0;
    assert i in r;
    var k :| 0 <= k < n && r[k] == i;
  }


  // ----- part 1 -----

  /** One pass of the mixing loop with a non-zero move: walk `d` links on,
      unlink the entry, and link it back in after the entry reached. */
  method MixEntry(next: seq<nat>, prev: seq<nat>, ghost order: seq<nat>, e: nat, d: nat)
    returns (next': seq<nat>, prev': seq<nat>, ghost order': seq<nat>)
    requires Ring(next, prev, order) && e in order && 0 < d < |order|
    ensures |next'| == |next| && order' == MixStep(order, e, d) && Ring(next', prev', order')
  {
    ghost var rot := Rotate(order, IndexOf(order, e));
    MixPrep(next, prev, order, e, d);
    var current := MoveForward(next, e, d);
    next', prev' := Detach(next, prev, rot, e);
    next', prev' := Attach(next', prev', rot[1..], d - 1, e, current);
    order' := InsertAt(rot[1..], d, e);
  }

  /** Seen from the moving entry, the ring starts at the entry, and `d`
      places on is the entry it goes after. */
  lemma MixPrep(next: seq<nat>, prev: seq<nat>, order: seq<nat>, e: nat, d: nat)
    requires Ring(next, prev, order) && e in order && 0 < d < |order|
    ensures var rot := Rotate(order, IndexOf(order, e));
      && Ring(next, prev, rot) && |rot| == |order| && rot[0] == e
      && Forward(next, e, d) == rot[1..][d - 1] && e !in rot[1..]
  {
    var rot := Rotate(order, IndexOf(order, e));
    RotateRing(next, prev, order, IndexOf(order, e));
    assert rot[0] == e;
    ForwardInRing(next, prev, rot, 0, d);
    forall k | 0 <= k < |rot[1..]|
      ensures rot[1..][k] != e
    {
      assert rot[1..][k] == rot[k + 1];
    }
  }

  /** Taking the entry at the head of the order out of the ring: its
      neighbours are linked to each other. */
  method Detach(next: seq<nat>, prev: seq<nat>, ghost order: seq<nat>, e: nat)
    returns (next': seq<nat>, prev': seq<nat>)
    requires Ring(next, prev, order) && |order| >= 2 && e == order[0]
    ensures |next'| == |next| && Ring(next', prev', order[1..])
  {
    Unlink(next, prev, order);
    prev' := prev[next[e] := prev[e]];
    next' := next[prev[e] := next[e]];
  }

  /** Putting entry `e` back into the ring right after `current`, the
      `j`-th entry of the order. */
  method Attach(next: seq<nat>, prev: seq<nat>, ghost rest: seq<nat>, ghost j: nat, e: nat, current: nat)
    returns (next': seq<nat>, prev': seq<nat>)
    requires Ring(next, prev, rest) && j < |rest| && current == rest[j] && e < |next| && e !in rest
    ensures |next'| == |next| && Ring(next', prev', InsertAt(rest, j + 1, e))
  {
    Relink(next, prev, rest, j, e);
    prev' := prev[e := current];
    next' := next[e := next[current]];
    prev' := prev'[next'[current] := e];
    next' := next'[current := e];
  }

  /** `part1`: link the entries, move each in input order by its net move,
      find the value 0 from entry 0 and add the three values after it.
      Without a 0 the search never ends, hence the precondition. */
  method Part1(values: seq<int>) returns (result: int)
    requires 0 in values
    ensures result == GroveSum(values, AsWritten)
  {
    var next, prev, order := Mix(values);
    MixUpToPerm(values, |values|, AsWritten);
    ghost var r := FromFirst(order, |values|);
    FromFirstRing(values, next, prev, order);
    result := Coordinates(values, next, prev, r);
  }

  /** The linking and the moves of `part1`, one entry after the other in
      input order. */
  method Mix(values: seq<int>) returns (next: seq<nat>, prev: seq<nat>, ghost order: seq<nat>)
    requires |values| >= 1
    ensures |next| == |values| && Ring(next, prev, order)
    ensures order == MixUpTo(values, |values|, AsWritten)
  {
    var n := |values|;
    next, prev := Link(n);
    for idx := 0 to n
      invariant |next| == n && Ring(next, prev, MixUpTo(values, idx, AsWritten))
    {
      next, prev := MixOne(values, next, prev, idx);
    }
    order := MixUpTo(values, n, AsWritten);
  }

  /** One round of the loop of `part1`: the net move of entry `idx`, and
      the move when it is not 0. */
  method MixOne(values: seq<int>, next: seq<nat>, prev: seq<nat>, idx: nat)
    returns (next': seq<nat>, prev': seq<nat>)
    requires idx < |values| == |next| && Ring(next, prev, MixUpTo(values, idx, AsWritten))
    ensures |next'| == |values| && Ring(next', prev', MixUpTo(values, idx + 1, AsWritten))
  {
    var n := |values|;
    ghost var order := MixUpTo(values, idx, AsWritten);
    MixUpToPerm(values, idx, AsWritten);
    var netMove := JsRem(values[idx], n);
    if netMove < 0 {
      netMove := netMove + n - 1;
      netMove := JsRem(netMove, n);
    }
    assert netMove == Net(values[idx], n, false);
    next', prev' := next, prev;
    if netMove > 0 {
      Entries(order, n);
      ghost var order';
      next', prev', order' := MixEntry(next, prev, order, idx, netMove);
    }
  }

  /** The end of `part1`: from entry 0 find the value 0, then add the
      values 1000, 2000 and 3000 places on. */
  method Coordinates(values: seq<int>, next: seq<nat>, prev: seq<nat>, ghost r: seq<nat>) returns (result: int)
    requires Ring(next, prev, r) && r[0] == 0
    requires forall k :: 0 <= k < |r| ==> r[k] < |values|
    requires exists k :: 0 <= k < |r| && values[r[k]] == 0
    ensures result == GroveAt(values, r, FirstZero(values, r), 1000)
  {
    var entry := FindZero(values, next, prev, r);
    result := ThreeOn(values, next, prev, r, FirstZero(values, r), entry, 1000);
  }

  /** The ring read from entry 0 is a ring that meets the value 0. */
  lemma FromFirstRing(values: seq<int>, next: seq<nat>, prev: seq<nat>, order: seq<nat>)
    requires 0 in values && |order| == |values|
    requires multiset(order) == multiset(Indices(|values|)) && Ring(next, prev, order)
    ensures var r := FromFirst(order, |values|);
      && Ring(next, prev, r) && r[0] == 0
      && (forall k :: 0 <= k < |r| ==> r[k] < |values|)
      && exists k :: 0 <= k < |r| && values[r[k]] == 0
  {
    var r := FromFirst(order, |values|);
    HasZero(values, r);
    Entries(order, |values|);
    RotateRing(next, prev, order, IndexOf(order, 0));
  }

  /** Following `next` from the head of the ring to the first value 0. */
  method FindZero(values: seq<int>, next: seq<nat>, prev: seq<nat>, ghost r: seq<nat>) returns (entry: nat)
    requires Ring(next, prev, r) && r[0] == 0
    requires forall k :: 0 <= k < |r| ==> r[k] < |values|
    requires exists k :: 0 <= k < |r| && values[r[k]] == 0
    ensures entry == r[FirstZero(values, r)]
  {
    ghost var z := FirstZero(values, r);
    entry := 0;
    ghost var j := 0;
    while values[entry] != 0
      invariant j <= z && entry == r[j]
      decreases z - j
    {
      entry := next[entry];
      j := j + 1;
    }
  }

  /** The values `step`, twice `step` and three times `step` places on
      from the `z`-th entry of the ring, added up. */
  method ThreeOn(values: seq<int>, next: seq<nat>, prev: seq<nat>, ghost r: seq<nat>, ghost z: nat, entry: nat, step: nat)
    returns (result: int)
    requires Ring(next, prev, r) && z < |r| && entry == r[z]
    requires forall k :: 0 <= k < |r| ==> r[k] < |values|
    ensures result == GroveAt(values, r, z, step)
  {
    var first := StepOn(next, prev, r, z, entry, step);
    var second := StepOn(next, prev, r, z + step, first, step);
    var third := StepOn(next, prev, r, z + step + step, second, step);
    result := values[first] + values[second] + values[third];
  }

  /** `moveForward` from the entry `k` places round the ring. */
  method StepOn(next: seq<nat>, prev: seq<nat>, ghost r: seq<nat>, ghost k: nat, entry: nat, step: nat)
    returns (current: nat)
    requires Ring(next, prev, r) && entry == r[Around(k, |r|)]
    ensures current == r[Around(k + step, |r|)]
  {
    ForwardInRing(next, prev, r, Around(k, |r|), step);
    AroundAdd(k, step, |r|);
    current := MoveForward(next, entry, step);
  }

  // ----- where the net move goes wrong -----

  /** For values smaller in size than the list, `netMove` is the value
      modulo the n - 1 other entries, as a move round the ring should be. */
  lemma NetMoveSmall(v: int, n: nat)
    requires n >= 2 && -(n as int) < v < n
    ensures (NetMove(v, n) - v) % (n - 1) == 0
  {
    SelfRem(n - 1);
    if v >= 0 {
      assert NetMove(v, n) == v;
    } else {
      assert NetMove(v, n) == v + n - 1;
    }
  }

  lemma SelfRem(n: int)
    requires n > 0
    ensures n % n == 0 && 0 % n == 0
  {
  }

  /** As written, a 3 in a list of three entries is not moved, though a
      move of three places among the two others is a move of one. */
  lemma NetMoveMisses()
    ensures Indices(3) == [0, 1, 2]
    ensures NetMove(3, 3) == 0 && (NetMove(3, 3) - 3) % 2 != 0
    ensures Net(3, 3, true) == 1
    ensures MixUpTo([3, 0, 0], 1, false) == [0, 1, 2]
    ensures MixUpTo([3, 0, 0], 1, true) == MixStep([0, 1, 2], 0, 1) == [1, 0, 2]
  {
    assert Indices(3) == [0, 1, 2];
    assert Rotate([0, 1, 2], 0) == [0, 1, 2];
  }

  /** Corrected, the entry lands among the others exactly the value's
      number of places on, counted modulo their number. */
  lemma CorrectedNet(v: int, n: nat)
    requires n >= 2
    ensures 0 <= Net(v, n, true) < n - 1
    ensures Net(v, n, true) == v % (n - 1)
  {
    ModuloIsMod(v, n - 1);
  }
}
