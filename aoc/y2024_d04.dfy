/** 2024 day 4: a word search. Part 1 counts each cell and direction from
    which "XMAS" reads in a straight line; part 2 counts the 'A's at the
    centre of two crossing diagonals that each read "MAS" one way or the
    other. Rows are indexed first; the column bound is the first row's
    length, as in the source. */
module Day2024_04 {
  import opened Common

  type Pair = (int, int)

  const Target: string := "XMAS"

  const Directions: seq<Pair> := [(0, 1), (1, 0), (0, -1), (-1, 0), (1, 1), (1, -1), (-1, 1), (-1, -1)]

  /** The character at `p`; none outside the grid's bounds or past the end
    * of a shorter row, where the source reads `undefined`. */
  function CharOf(grid: seq<string>, p: Pair): Option<char>
  {
    if 0 <= p.0 < |grid| && 0 <= p.1 < |grid[0]| && p.1 < |grid[p.0]| then Some(grid[p.0][p.1]) else None
  }

  function Step(pos: Pair, direction: Pair): Pair
  {
    (pos.0 + direction.0, pos.1 + direction.1)
  }

  /** `part1Search`: false outside the bounds or on a mismatch, true once
    * the last letter matches. */
  function Part1Search(grid: seq<string>, pos: Pair, direction: Pair, offset: nat): bool
    requires offset < |Target|
    decreases |Target| - offset
  {
    if pos.0 < 0 || pos.0 >= |grid| || pos.1 < 0 || pos.1 >= |grid[0]| then false
    else if !(pos.1 < |grid[pos.0]| && grid[pos.0][pos.1] == Target[offset]) then false
    else if offset == |Target| - 1 then true
    else Part1Search(grid, Step(pos, direction), direction, offset + 1)
  }

  /** `n` steps of `direction` from `pos`. */
  function Along(pos: Pair, direction: Pair, n: int): Pair
  {
    (pos.0 + n * direction.0, pos.1 + n * direction.1)
  }

  /** The search from the start succeeds exactly when the word's letters
    * lie, in order, on the cells `pos + k * direction` for k = 0 .. 3. */
  lemma Part1SearchMeaning(grid: seq<string>, pos: Pair, direction: Pair)
    ensures Part1Search(grid, pos, direction, 0) <==>
      forall k :: 0 <= k < |Target| ==> CharOf(grid, Along(pos, direction, k)) == Some(Target[k])
  {
    var p1 := Step(pos, direction);
    var p2 := Step(p1, direction);
    var p3 := Step(p2, direction);
    assert Along(pos, direction, 0) == pos && Along(pos, direction, 1) == p1;
    assert Along(pos, direction, 2) == p2 && Along(pos, direction, 3) == p3;
    assert Part1Search(grid, p3, direction, 3) <==> CharOf(grid, p3) == Some('S');
    assert Part1Search(grid, p2, direction, 2) <==> CharOf(grid, p2) == Some('A') && Part1Search(grid, p3, direction, 3);
    assert Part1Search(grid, p1, direction, 1) <==> CharOf(grid, p1) == Some('M') && Part1Search(grid, p2, direction, 2);
    assert Part1Search(grid, pos, direction, 0) <==> CharOf(grid, pos) == Some('X') && Part1Search(grid, p1, direction, 1);
    if forall k :: 0 <= k < |Target| ==> CharOf(grid, Along(pos, direction, k)) == Some(Target[k]) {
      assert CharOf(grid, Along(pos, direction, 0)) == Some(Target[0]);
      assert CharOf(grid, Along(pos, direction, 1)) == Some(Target[1]);
      assert CharOf(grid, Along(pos, direction, 2)) == Some(Target[2]);
      assert CharOf(grid, Along(pos, direction, 3)) == Some(Target[3]);
    }
  }

  /** A hit of part 1: a cell of the grid and the index of a direction from
    * which the word reads. */
  predicate IsHit(grid: seq<string>, t: (int, int, int))
  {
    0 <= t.0 < |grid| && 0 <= t.1 < |grid[t.0]| && 0 <= t.2 < |Directions|
    && Part1Search(grid, (t.0, t.1), Directions[t.2], 0)
  }

  function Hits(grid: seq<string>): set<(int, int, int)>
  {
    set r, c, k | 0 <= r < |grid| && 0 <= c < |grid[r]| && 0 <= k < |Directions| && IsHit(grid, (r, c, k)) :: (r, c, k)
  }

  lemma HitsMeaning(grid: seq<string>, t: (int, int, int))
    ensures t in Hits(grid) <==> IsHit(grid, t)
  {
  }

  /** `t` comes before cell (r, c), direction k, in the order of the loops. */
  predicate Before3(t: (int, int, int), r: int, c: int, k: int)
  {
    t.0 < r || (t.0 == r && (t.1 < c || (t.1 == c && t.2 < k)))
  }

  /** One step of the scan: `found` holds the members of `all` scanned so
    * far; the cell and direction scanned next joins it when it is one. */
  lemma ScanStep3(found: set<(int, int, int)>, all: set<(int, int, int)>, r: int, c: int, k: int)
    requires forall t :: t in found <==> t in all && Before3(t, r, c, k)
    ensures (r, c, k) !in found
    ensures (r, c, k) in all ==> forall t :: t in found + {(r, c, k)} <==> t in all && Before3(t, r, c, k + 1)
    ensures (r, c, k) !in all ==> forall t :: t in found <==> t in all && Before3(t, r, c, k + 1)
  {
  }

  /** Part 1: the three loops over rows, the cells of each row and the
    * eight directions, counting the searches that succeed. */
  method Part1(grid: seq<string>) returns (matches: nat)
    ensures matches == |Hits(grid)|
  {
    matches := 0;
    ghost var all := Hits(grid);
    ghost var found: set<(int, int, int)> := {};
    for r := 0 to |grid|
      invariant matches == |found|
      invariant forall t :: t in found <==> t in all && Before3(t, r, 0, 0)
    {
      for c := 0 to |grid[r]|
        invariant matches == |found|
        invariant forall t :: t in found <==> t in all && Before3(t, r, c, 0)
      {
        for k := 0 to |Directions|
          invariant matches == |found|
          invariant forall t :: t in found <==> t in all && Before3(t, r, c, k)
        {
          HitsMeaning(grid, (r, c, k));
          ScanStep3(found, all, r, c, k);
          if Part1Search(grid, (r, c), Directions[k], 0) {
            found := found + {(r, c, k)};
            matches := matches + 1;
          }
        }
        forall t | t in all && t.0 == r && t.1 == c
          ensures t.2 < |Directions|
        {
          HitsMeaning(grid, t);
        }
      }
      forall t | t in all && t.0 == r
        ensures t.1 < |grid[r]|
      {
        HitsMeaning(grid, t);
      }
    }
    forall t | t in all
      ensures t.0 < |grid|
    {
      HitsMeaning(grid, t);
    }
    assert found == all;
  }

  // ---------------------------------------------------------------------------
  // Part 2
  // ---------------------------------------------------------------------------

  /** One diagonal through `pos`: the two cells at `offset1` and `offset2`
    * read "MS" or "SM". */
  predicate DiagonalMatches(grid: seq<string>, pos: Pair, offset1: Pair, offset2: Pair)
  {
    var first := CharOf(grid, (pos.0 + offset1.0, pos.1 + offset1.1));
    var second := CharOf(grid, (pos.0 + offset2.0, pos.1 + offset2.1));
    (first == Some('M') && second == Some('S')) || (first == Some('S') && second == Some('M'))
  }

  /** `matchesPart2`: an 'A' off the border, on both diagonals between an
    * 'M' and an 'S'. */
  predicate MatchesPart2(grid: seq<string>, pos: Pair)
  {
    if pos.0 < 1 || pos.0 >= |grid| - 1 || pos.1 < 1 || pos.1 >= |grid[0]| - 1 then false
    else if CharOf(grid, pos) != Some('A') then false
    else DiagonalMatches(grid, pos, (1, 1), (-1, -1)) && DiagonalMatches(grid, pos, (1, -1), (-1, 1))
  }

  /** A cross is an 'A' with each diagonal reading "MAS" one way or the
    * other; so it reads the same in the grid turned upside down. */
  lemma MatchesPart2Meaning(grid: seq<string>, pos: Pair)
    requires MatchesPart2(grid, pos)
    ensures 1 <= pos.0 < |grid| - 1 && 1 <= pos.1 < |grid[0]| - 1 && CharOf(grid, pos) == Some('A')
    ensures multiset{CharOf(grid, (pos.0 - 1, pos.1 - 1)), CharOf(grid, (pos.0 + 1, pos.1 + 1))} == multiset{Some('M'), Some('S')}
    ensures multiset{CharOf(grid, (pos.0 - 1, pos.1 + 1)), CharOf(grid, (pos.0 + 1, pos.1 - 1))} == multiset{Some('M'), Some('S')}
  {
  }

  /** Turning the grid upside down keeps every cross, at the mirrored
    * row. */
  lemma CrossUpsideDown(grid: seq<string>, pos: Pair)
    requires |grid| > 0 && forall r :: 0 <= r < |grid| ==> |grid[r]| == |grid[0]|
    ensures MatchesPart2(grid, pos) <==> MatchesPart2(Flipped(grid), (|grid| - 1 - pos.0, pos.1))
  {
    var flipped := Flipped(grid);
    assert |flipped[0]| == |grid[0]|;
    forall r, c | 0 <= r < |grid|
      ensures CharOf(flipped, (|grid| - 1 - r, c)) == CharOf(grid, (r, c))
    {
    }
    var q := (|grid| - 1 - pos.0, pos.1);
    if 1 <= pos.0 < |grid| - 1 {
      assert CharOf(flipped, (q.0 + 1, q.1 + 1)) == CharOf(grid, (pos.0 - 1, pos.1 + 1));
      assert CharOf(flipped, (q.0 - 1, q.1 - 1)) == CharOf(grid, (pos.0 + 1, pos.1 - 1));
      assert CharOf(flipped, (q.0 + 1, q.1 - 1)) == CharOf(grid, (pos.0 - 1, pos.1 - 1));
      assert CharOf(flipped, (q.0 - 1, q.1 + 1)) == CharOf(grid, (pos.0 + 1, pos.1 + 1));
    }
  }

  /** The rows in reverse order. */
  function Flipped(grid: seq<string>): (r: seq<string>)
    ensures |r| == |grid| && forall k :: 0 <= k < |grid| ==> r[k] == grid[|grid| - 1 - k]
  {
    seq(|grid|, k requires 0 <= k < |grid| => grid[|grid| - 1 - k])
  }

  predicate IsCross(grid: seq<string>, p: Pair)
  {
    0 <= p.0 < |grid| && 0 <= p.1 < |grid[p.0]| && MatchesPart2(grid, p)
  }

  function Crosses(grid: seq<string>): set<Pair>
  {
    set r, c | 0 <= r < |grid| && 0 <= c < |grid[r]| && IsCross(grid, (r, c)) :: (r, c)
  }

  lemma CrossesMeaning(grid: seq<string>, p: Pair)
    ensures p in Crosses(grid) <==> IsCross(grid, p)
  {
  }

  /** `p` comes before cell (r, c) in the order of the loops. */
  predicate Before(p: Pair, r: int, c: int)
  {
    p.0 < r || (p.0 == r && p.1 < c)
  }

  /** One step of the scan: `found` holds the members of `all` scanned so
    * far; the cell scanned next joins it when it is one. */
  lemma ScanStep(found: set<Pair>, all: set<Pair>, r: int, c: int)
    requires forall p :: p in found <==> p in all && Before(p, r, c)
    ensures (r, c) !in found
    ensures (r, c) in all ==> forall p :: p in found + {(r, c)} <==> p in all && Before(p, r, c + 1)
    ensures (r, c) !in all ==> forall p :: p in found <==> p in all && Before(p, r, c + 1)
  {
  }

  /** The inner loop of part 2, over the cells of row `r`. */
  method ScanRow(grid: seq<string>, r: nat, matches: nat, ghost found: set<Pair>) returns (matches': nat, ghost found': set<Pair>)
    requires r < |grid| && matches == |found|
    requires forall p :: p in found <==> p in Crosses(grid) && Before(p, r, 0)
    ensures matches' == |found'|
    ensures forall p :: p in found' <==> p in Crosses(grid) && Before(p, r + 1, 0)
  {
    ghost var all := Crosses(grid);
    matches', found' := matches, found;
    for c := 0 to |grid[r]|
      invariant matches' == |found'|
      invariant forall p :: p in found' <==> p in all && Before(p, r, c)
    {
      CrossesMeaning(grid, (r, c));
      ScanStep(found', all, r, c);
      if MatchesPart2(grid, (r, c)) {
        found' := found' + {(r, c)};
        matches' := matches' + 1;
      }
    }
    forall p | p in all && p.0 == r
      ensures p.1 < |grid[r]|
    {
      CrossesMeaning(grid, p);
    }
  }

  /** Part 2: the loops over rows and the cells of each row, counting the
    * crosses. */
  method Part2(grid: seq<string>) returns (matches: nat)
    ensures matches == |Crosses(grid)|
  {
    matches := 0;
    ghost var found: set<Pair> := {};
    for r := 0 to |grid|
      invariant matches == |found|
      invariant forall p :: p in found <==> p in Crosses(grid) && Before(p, r, 0)
    {
      matches, found := ScanRow(grid, r, matches, found);
    }
    forall p | p in Crosses(grid)
      ensures p.0 < |grid|
    {
      CrossesMeaning(grid, p);
    }
    assert found == Crosses(grid);
  }
}
