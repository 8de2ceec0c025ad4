/** 2022 day 8: a square forest of tree heights. A tree is visible when
    every tree between it and some edge is shorter; its scenic score is the
    product of how far it sees in the four directions. */
module Day2022_08 {
  /** The loops bound rows by `trees[c].length` and columns by
      `trees.length` interchangeably, so the forest is square. */
  ghost predicate Square(trees: seq<seq<int>>)
  {
    forall i :: 0 <= i < |trees| ==> |trees[i]| == |trees|
  }

  datatype Direction = Up | Down | Left | Right

  /** The number of trees between (r, c) and the edge in direction `d`. */
  function Steps(n: nat, r: nat, c: nat, d: Direction): nat
    requires r < n && c < n
  {
    match d
    case Up => r
    case Down => n - 1 - r
    case Left => c
    case Right => n - 1 - c
  }

  /** The cell `k + 1` steps away from (r, c) in direction `d`. */
  function CellAt(n: nat, r: nat, c: nat, d: Direction, k: nat): (cell: (nat, nat))
    requires r < n && c < n && k < Steps(n, r, c, d)
    ensures cell.0 < n && cell.1 < n
  {
    match d
    case Up => (r - 1 - k, c)
    case Down => (r + 1 + k, c)
    case Left => (r, c - 1 - k)
    case Right => (r, c + 1 + k)
  }

  /** The heights met walking from (r, c) to the edge in direction `d`,
      nearest first. */
  function Ray(trees: seq<seq<int>>, r: nat, c: nat, d: Direction): (ray: seq<int>)
    requires Square(trees) && r < |trees| && c < |trees|
    ensures |ray| == Steps(|trees|, r, c, d)
  {
    var n := |trees|;
    seq(Steps(n, r, c, d), k requires 0 <= k < Steps(n, r, c, d) =>
      trees[CellAt(n, r, c, d, k).0][CellAt(n, r, c, d, k).1])
  }

  /** `range(...).every((t) => trees[..] < height)`. */
  predicate AllShorter(ray: seq<int>, h: int)
  {
    forall k :: 0 <= k < |ray| ==> ray[k] < h
  }

  ghost predicate Visible(trees: seq<seq<int>>, r: nat, c: nat)
    requires Square(trees) && r < |trees| && c < |trees|
  {
    var h := trees[r][c];
    || AllShorter(Ray(trees, r, c, Up), h)
    || AllShorter(Ray(trees, r, c, Down), h)
    || AllShorter(Ray(trees, r, c, Left), h)
    || AllShorter(Ray(trees, r, c, Right), h)
  }

  /** A tree on the edge has nothing in front of it on that side. */
  lemma EdgeVisible(trees: seq<seq<int>>, r: nat, c: nat)
    requires Square(trees) && r < |trees| && c < |trees|
    requires r == 0 || c == 0 || r == |trees| - 1 || c == |trees| - 1
    ensures Visible(trees, r, c)
  {
    var n := |trees|;
    if r == 0 {
      assert Ray(trees, r, c, Up) == [];
    } else if c == 0 {
      assert Ray(trees, r, c, Left) == [];
    } else if r == n - 1 {
      assert Ray(trees, r, c, Down) == [];
    } else {
      assert Ray(trees, r, c, Right) == [];
    }
  }

  /** The number of visible trees in row `r` before column `k`. */
  ghost function VisibleInRow(trees: seq<seq<int>>, r: nat, k: nat): nat
    requires Square(trees) && r < |trees| && k <= |trees|
  {
    if k == 0 then 0
    else VisibleInRow(trees, r, k - 1) + if Visible(trees, r, k - 1) then 1 else 0
  }

  /** The number of visible trees in the rows before row `k`. */
  ghost function VisibleUpTo(trees: seq<seq<int>>, k: nat): nat
    requires Square(trees) && k <= |trees|
  {
    if k == 0 then 0
    else VisibleUpTo(trees, k - 1) + VisibleInRow(trees, k - 1, |trees|)
  }

  /** Part 1: count the visible trees, row by row. */
  method CountVisible(trees: seq<seq<int>>) returns (visible: nat)
    requires Square(trees)
    ensures visible == VisibleUpTo(trees, |trees|)
  {
    visible := 0;
    var r := 0;
    while r < |trees|
      invariant 0 <= r <= |trees|
      invariant visible == VisibleUpTo(trees, r)
    {
      var c := 0;
      while c < |trees[r]|
        invariant 0 <= c <= |trees|
        invariant visible == VisibleUpTo(trees, r) + VisibleInRow(trees, r, c)
      {
        var height := trees[r][c];
        var lSmaller := AllShorter(Ray(trees, r, c, Up), height);
        var rSmaller := AllShorter(Ray(trees, r, c, Down), height);
        var uSmaller := AllShorter(Ray(trees, r, c, Left), height);
        var dSmaller := AllShorter(Ray(trees, r, c, Right), height);
        assert (lSmaller || rSmaller || uSmaller || dSmaller) == Visible(trees, r, c);
        if lSmaller || rSmaller || uSmaller || dSmaller {
          visible := visible + 1;
        }
        c := c + 1;
      }
      r := r + 1;
    }
  }

  /** Every tree of the first row is visible. */
  lemma {:induction false} FirstRowVisible(trees: seq<seq<int>>, k: nat)
    requires Square(trees) && 0 < |trees| && k <= |trees|
    ensures VisibleInRow(trees, 0, k) == k
  {
    if k > 0 {
      FirstRowVisible(trees, k - 1);
      EdgeVisible(trees, 0, k - 1);
    }
  }

  lemma {:induction false} VisibleInRowBound(trees: seq<seq<int>>, r: nat, k: nat)
    requires Square(trees) && r < |trees| && k <= |trees|
    ensures VisibleInRow(trees, r, k) <= k
  {
    if k > 0 {
      VisibleInRowBound(trees, r, k - 1);
    }
  }

  /** The count lies between a full row and the whole forest. */
  lemma {:induction false} VisibleUpToBounds(trees: seq<seq<int>>, k: nat)
    requires Square(trees) && 0 < k <= |trees|
    ensures |trees| <= VisibleUpTo(trees, k) <= k * |trees|
  {
    VisibleInRowBound(trees, k - 1, |trees|);
    if k == 1 {
      FirstRowVisible(trees, |trees|);
    } else {
      VisibleUpToBounds(trees, k - 1);
      assert k * |trees| == (k - 1) * |trees| + |trees|;
    }
  }

  /** How far a tree of height `h` sees along `ray`: the trees up to and
      including the first that is at least as tall. */
  function ViewingDistance(ray: seq<int>, h: int): (d: nat)
    ensures d <= |ray|
  {
    if ray == [] then 0
    else if ray[0] >= h then 1
    else 1 + ViewingDistance(ray[1..], h)
  }

  /** The distance stops at the first blocking tree, or at the edge when
      every tree is shorter. */
  lemma {:induction false} ViewingDistanceStops(ray: seq<int>, h: int)
    ensures forall k :: 0 <= k < ViewingDistance(ray, h) - 1 ==> ray[k] < h
    ensures ViewingDistance(ray, h) < |ray| ==> ray[ViewingDistance(ray, h) - 1] >= h
    ensures ViewingDistance(ray, h) == |ray| <==> forall k :: 0 <= k < |ray| - 1 ==> ray[k] < h
  {
    if ray != [] && ray[0] < h {
      ViewingDistanceStops(ray[1..], h);
      assert forall k :: 1 <= k < |ray| ==> ray[k] == ray[1..][k - 1];
    }
  }

  /** A tree visible from an edge sees all the way to that edge. */
  lemma {:induction false} ShorterSeesEdge(ray: seq<int>, h: int)
    requires AllShorter(ray, h)
    ensures ViewingDistance(ray, h) == |ray|
  {
    if ray != [] {
      ShorterSeesEdge(ray[1..], h);
    }
  }

  /** One viewing-distance loop: step from the tree towards the edge,
      counting each tree, and stop after the first at least as tall. */
  method Look(trees: seq<seq<int>>, r: nat, c: nat, d: Direction) returns (score: nat)
    requires Square(trees) && r < |trees| && c < |trees|
    ensures score == ViewingDistance(Ray(trees, r, c, d), trees[r][c])
  {
    var n := |trees|;
    var height := trees[r][c];
    ghost var ray := Ray(trees, r, c, d);
    score := 0;
    var k := 0;
    while k < Steps(n, r, c, d)
      invariant 0 <= k <= |ray| && score == k
      invariant ViewingDistance(ray, height) == score + ViewingDistance(ray[k..], height)
    {
      var cell := CellAt(n, r, c, d, k);
      assert trees[cell.0][cell.1] == ray[k];
      score := score + 1;
      if trees[cell.0][cell.1] >= height {
        return;
      }
      assert ray[k..][1..] == ray[k + 1..];
      k := k + 1;
    }
  }

  ghost function Scenic(trees: seq<seq<int>>, r: nat, c: nat): nat
    requires Square(trees) && r < |trees| && c < |trees|
  {
    var h := trees[r][c];
    Product(Product(Product(ViewingDistance(Ray(trees, r, c, Up), h), ViewingDistance(Ray(trees, r, c, Down), h)),
      ViewingDistance(Ray(trees, r, c, Left), h)), ViewingDistance(Ray(trees, r, c, Right), h))
  }

  function Product(a: nat, b: nat): nat
  {
    a * b
  }

  /** A tree on the edge sees nothing on one side, so its score is 0. */
  lemma EdgeScenicZero(trees: seq<seq<int>>, r: nat, c: nat)
    requires Square(trees) && r < |trees| && c < |trees|
    requires r == 0 || c == 0 || r == |trees| - 1 || c == |trees| - 1
    ensures Scenic(trees, r, c) == 0
  {
    var h := trees[r][c];
    var u := ViewingDistance(Ray(trees, r, c, Up), h);
    var dn := ViewingDistance(Ray(trees, r, c, Down), h);
    var l := ViewingDistance(Ray(trees, r, c, Left), h);
    var rt := ViewingDistance(Ray(trees, r, c, Right), h);
    assert u == 0 || dn == 0 || l == 0 || rt == 0;
    assert Scenic(trees, r, c) == Product(Product(Product(u, dn), l), rt);
  }

  /** The scenic score of one tree: the product of its four viewing
      distances. */
  method ScenicScore(trees: seq<seq<int>>, r: nat, c: nat) returns (cScore: nat)
    requires Square(trees) && r < |trees| && c < |trees|
    ensures cScore == Scenic(trees, r, c)
  {
    var lScore := Look(trees, r, c, Up);
    var rScore := Look(trees, r, c, Down);
    var uScore := Look(trees, r, c, Left);
    var dScore := Look(trees, r, c, Right);
    cScore := Product(Product(Product(lScore, rScore), uScore), dScore);
  }

  /** No tree in the first `rows` rows scores more than `m`. */
  ghost predicate RowsAtMost(trees: seq<seq<int>>, rows: nat, m: nat)
    requires Square(trees) && rows <= |trees|
  {
    forall rr, cc :: 0 <= rr < rows && 0 <= cc < |trees| ==> Scenic(trees, rr, cc) <= m
  }

  /** No tree in the first `cols` columns of row `r` scores more than `m`. */
  ghost predicate ColumnsAtMost(trees: seq<seq<int>>, r: nat, cols: nat, m: nat)
    requires Square(trees) && r < |trees| && cols <= |trees|
  {
    forall cc :: 0 <= cc < cols ==> Scenic(trees, r, cc) <= m
  }

  lemma RowsAtMostStep(trees: seq<seq<int>>, r: nat, m: nat)
    requires Square(trees) && r < |trees|
    requires RowsAtMost(trees, r, m) && ColumnsAtMost(trees, r, |trees|, m)
    ensures RowsAtMost(trees, r + 1, m)
  {
  }

  lemma AtMostRaise(trees: seq<seq<int>>, r: nat, c: nat, m: nat, m': nat)
    requires Square(trees) && r < |trees| && c < |trees| && m <= m'
    requires RowsAtMost(trees, r, m) && ColumnsAtMost(trees, r, c, m) && Scenic(trees, r, c) <= m'
    ensures RowsAtMost(trees, r, m') && ColumnsAtMost(trees, r, c + 1, m')
  {
  }

  /** Part 2: the best scenic score over the forest, 0 for an empty one. */
  method BestScenic(trees: seq<seq<int>>) returns (maxScore: nat)
    requires Square(trees)
    ensures forall r, c :: 0 <= r < |trees| && 0 <= c < |trees| ==> Scenic(trees, r, c) <= maxScore
    ensures maxScore == 0 || exists r, c :: 0 <= r < |trees| && 0 <= c < |trees| && Scenic(trees, r, c) == maxScore
  {
    var n := |trees|;
    maxScore := 0;
    ghost var bestR, bestC := 0, 0;
    var r := 0;
    while r < n
      invariant 0 <= r <= n
      invariant RowsAtMost(trees, r, maxScore)
      invariant maxScore == 0 || (bestR < n && bestC < n && Scenic(trees, bestR, bestC) == maxScore)
    {
      var c := 0;
      while c < |trees[r]|
        invariant 0 <= c <= n
        invariant RowsAtMost(trees, r, maxScore) && ColumnsAtMost(trees, r, c, maxScore)
        invariant maxScore == 0 || (bestR < n && bestC < n && Scenic(trees, bestR, bestC) == maxScore)
      {
        var cScore := ScenicScore(trees, r, c);
        ghost var before := maxScore;
        if cScore > maxScore {
          maxScore := cScore;
          bestR, bestC := r, c;
        }
        AtMostRaise(trees, r, c, before, maxScore);
        c := c + 1;
      }
      RowsAtMostStep(trees, r, maxScore);
      r := r + 1;
    }
    assert RowsAtMost(trees, n, maxScore);
  }
}
