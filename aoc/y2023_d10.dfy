/** 2023 day 10: a loop of pipes. Each pipe joins two of the four unit
    directions; the start tile 'S' is replaced by the first pipe whose two
    neighbours both join back to it, and the walk follows the pipes, never
    going straight back, until it stands on the start again. Part 1 is half
    the loop's length. */
module Day2023_10 {
  import opened Common

  type Offset = (int, int)

  function Neg(o: Offset): Offset
  {
    (-o.0, -o.1)
  }

  function Plus(p: (int, int), o: Offset): (int, int)
  {
    (p.0 + o.0, p.1 + o.1)
  }

  /** `offsets`: the two directions a pipe joins, in the order written;
    * none for a tile that is not a pipe, where the source reads
    * `undefined` and fails on it. */
  function Offsets(tile: char): Option<(Offset, Offset)>
  {
    match tile
    case '|' => Some(((0, -1), (0, 1)))
    case '-' => Some(((-1, 0), (1, 0)))
    case 'L' => Some(((0, -1), (1, 0)))
    case 'J' => Some(((0, -1), (-1, 0)))
    case '7' => Some(((-1, 0), (0, 1)))
    case 'F' => Some(((1, 0), (0, 1)))
    case _ => None
  }

  predicate IsUnit(o: Offset)
  {
    o == (0, -1) || o == (0, 1) || o == (-1, 0) || o == (1, 0)
  }

  /** Every pipe joins exactly two different unit directions. */
  lemma PipesJoinTwo(tile: char)
    requires Offsets(tile).Some?
    ensures var (a, b) := Offsets(tile).value; IsUnit(a) && IsUnit(b) && a != b
  {
  }

  /** The pipes in the order `Object.entries` lists the keys of `offsets`:
    * the integer-like key "7" comes first, then the others as written. */
  const PipeOrder: seq<char> := ['7', '|', '-', 'L', 'J', 'F']

  lemma PipeOrderIsPipes()
    ensures forall i :: 0 <= i < |PipeOrder| ==> Offsets(PipeOrder[i]).Some?
    ensures forall c :: Offsets(c).Some? ==> c in PipeOrder
  {
  }

  /** `grid.get(x, y)` on the grid of the lines: the tile, or undefined. */
  function Get(lines: seq<string>, x: int, y: int): Option<char>
  {
    if 0 <= y < |lines| && 0 <= x < |lines[y]| then Some(lines[y][x]) else None
  }

  // ---------------------------------------------------------------------------
  // The start tile
  // ---------------------------------------------------------------------------

  /** The position of the last 'S' in reading order, as the parsing loop
    * leaves it; (-1, -1) when there is none. */
  function FindStart(lines: seq<string>): (start: (int, int))
    ensures start != (-1, -1) ==> Get(lines, start.0, start.1) == Some('S')
  {
    if |lines| == 0 then (-1, -1)
    else
      var last := |lines| - 1;
      var x := LastIndexOf(lines[last], 'S');
      if x >= 0 then (x, last) else FindStart(lines[..last])
  }

  /** The last index of `ch` in `s`, or -1. */
  function LastIndexOf(s: string, ch: char): (x: int)
    ensures -1 <= x < |s|
    ensures x >= 0 ==> s[x] == ch && forall k :: x < k < |s| ==> s[k] != ch
    ensures x == -1 ==> ch !in s
  {
    if |s| == 0 then -1
    else if s[|s| - 1] == ch then |s| - 1
    else LastIndexOf(s[..|s| - 1], ch)
  }

  /** No 'S' comes after the start in reading order, and there is none at
    * all when the start is (-1, -1). */
  lemma {:induction false} FindStartIsLast(lines: seq<string>)
    ensures var start := FindStart(lines);
      forall y, x :: 0 <= y < |lines| && 0 <= x < |lines[y]| && lines[y][x] == 'S' ==>
        start != (-1, -1) && (y < start.1 || (y == start.1 && x <= start.0))
  {
    if |lines| > 0 {
      var last := |lines| - 1;
      if LastIndexOf(lines[last], 'S') < 0 {
        FindStartIsLast(lines[..last]);
        var start := FindStart(lines);
        forall y, x | 0 <= y < |lines| && 0 <= x < |lines[y]| && lines[y][x] == 'S'
          ensures start != (-1, -1) && (y < start.1 || (y == start.1 && x <= start.0))
        {
          assert y < last;
          assert lines[..last][y] == lines[y];
        }
      }
    }
  }

  /** Whether the neighbour of the start along `off` joins back to it; none
    * when that neighbour is a tile that is not a pipe, '.' or 'S', whose
    * offsets the source cannot read. */
  function JoinsBack(lines: seq<string>, start: (int, int), off: Offset): (r: Option<bool>)
    ensures r == Some(true) ==>
      var other := Get(lines, start.0 + off.0, start.1 + off.1);
      other.Some? && Offsets(other.value).Some?
      && Neg(off) in {Offsets(other.value).value.0, Offsets(other.value).value.1}
  {
    var other := Get(lines, start.0 + off.0, start.1 + off.1);
    if other.None? || other.value == '.' || other.value == 'S' then Some(false)
    else
      match Offsets(other.value)
      case None => None
      case Some(o) => Some(o.0 == Neg(off) || o.1 == Neg(off))
  }

  /** Whether both neighbours of a pipe at the start join back to it; the
    * second is looked at only when the first does, as `every` does. */
  function Fits(lines: seq<string>, start: (int, int), pipe: char): Option<bool>
    requires Offsets(pipe).Some?
  {
    var (a, b) := Offsets(pipe).value;
    match JoinsBack(lines, start, a)
    case None => None
    case Some(first) => if first then JoinsBack(lines, start, b) else Some(false)
  }

  /** Whether each pipe, in key order, fits at the start. */
  function FitResults(lines: seq<string>, start: (int, int)): (r: seq<Option<bool>>)
    ensures |r| == |PipeOrder|
  {
    seq(|PipeOrder|, i requires 0 <= i < |PipeOrder| => Fits(lines, start, PipeOrder[i]))
  }

  /** What the inference ends with: an error, no pipe fits, or the index
    * of the pipe that does. */
  datatype Pick = Thrown | NoPipe | Picked(index: nat)

  /** The first check from index `i` on that holds; the search stops at the
    * first check that fails. */
  function FirstFit(results: seq<Option<bool>>, i: nat): Pick
    decreases |results| - i
  {
    if i >= |results| then NoPipe
    else
      match results[i]
      case None => Thrown
      case Some(fits) => if fits then Picked(i) else FirstFit(results, i + 1)
  }

  /** The pick is the first check that holds, with none failing before it;
    * there is no pick exactly when every check is false. */
  lemma {:induction false} FirstFitMeaning(results: seq<Option<bool>>, i: nat)
    requires i <= |results|
    ensures var r := FirstFit(results, i);
      && (r.Picked? ==> (i <= r.index < |results| && results[r.index] == Some(true)
        && forall j :: i <= j < r.index ==> results[j] == Some(false)))
      && (r.NoPipe? <==> forall j :: i <= j < |results| ==> results[j] == Some(false))
      && (r.Thrown? ==> exists k :: (i <= k < |results| && results[k].None?
        && forall j :: i <= j < k ==> results[j] == Some(false)))
    decreases |results| - i
  {
    if i < |results| && results[i] == Some(false) {
      FirstFitMeaning(results, i + 1);
    }
  }

  /** The inference loop of `loadInput`. */
  method InferStart(lines: seq<string>, start: (int, int)) returns (r: Pick)
    ensures r == FirstFit(FitResults(lines, start), 0)
  {
    ghost var results := FitResults(lines, start);
    for i := 0 to |PipeOrder|
      invariant FirstFit(results, i) == FirstFit(results, 0)
    {
      var fits := Fits(lines, start, PipeOrder[i]);
      assert fits == results[i];
      if fits.None? {
        return Thrown;
      }
      if fits.value {
        return Picked(i);
      }
    }
    return NoPipe;
  }

  /** A pipe that replaces the start is joined back from both its ends. */
  lemma InferredJoins(lines: seq<string>, start: (int, int), pipe: char)
    requires Offsets(pipe).Some? && Fits(lines, start, pipe) == Some(true)
    ensures JoinsBack(lines, start, Offsets(pipe).value.0) == Some(true)
    ensures JoinsBack(lines, start, Offsets(pipe).value.1) == Some(true)
  {
  }

  // ---------------------------------------------------------------------------
  // The walk
  // ---------------------------------------------------------------------------

  /** The map the walk reads: the lines, with the start tile replaced when
    * a pipe was found for it. */
  datatype PipeMap = PipeMap(start: (int, int), lines: seq<string>, replaced: Option<char>)

  /** The map `loadInput` returns: the start is the last 'S', and its tile
    * is replaced when a pipe fits there; none when the inference fails. */
  function Loaded(lines: seq<string>): Option<PipeMap>
  {
    var start := FindStart(lines);
    if start.0 == -1 then Some(PipeMap(start, lines, None))
    else
      match FirstFit(FitResults(lines, start), 0)
      case Thrown => None
      case NoPipe => Some(PipeMap(start, lines, None))
      case Picked(k) => if k < |PipeOrder| then Some(PipeMap(start, lines, Some(PipeOrder[k]))) else None
  }

  function At(m: PipeMap, p: (int, int)): Option<char>
  {
    if p == m.start && m.replaced.Some? then m.replaced else Get(m.lines, p.0, p.1)
  }

  /** The first of a pipe's directions that does not go straight back. */
  function NextMove(offs: (Offset, Offset), move: Offset): Offset
  {
    if offs.0 != Neg(move) then offs.0 else offs.1
  }

  datatype Walker = Walker(position: (int, int), move: Offset)

  /** One step of the walk; none where the tile is not a pipe, which the
    * source fails on. */
  function Step(m: PipeMap, w: Walker): (r: Option<Walker>)
    ensures r.Some? ==> IsUnit(r.value.move) && r.value.position == Plus(w.position, r.value.move)
  {
    var tile := At(m, w.position);
    if tile.None? || Offsets(tile.value).None? then None
    else
      PipesJoinTwo(tile.value);
      var move := NextMove(Offsets(tile.value).value, w.move);
      Some(Walker(Plus(w.position, move), move))
  }

  /** The walker after `n` steps from the start, standing still at first. */
  function After(m: PipeMap, n: nat): Option<Walker>
  {
    if n == 0 then Some(Walker(m.start, (0, 0)))
    else
      match After(m, n - 1)
      case None => None
      case Some(w) => Step(m, w)
  }

  /** The walk first stands on the start again after `n` steps. */
  ghost predicate FirstReturn(m: PipeMap, n: nat)
  {
    && n >= 1 && After(m, n).Some? && After(m, n).value.position == m.start
    && forall k :: 1 <= k < n ==> After(m, k).Some? && After(m, k).value.position != m.start
  }

  /** The walk never goes straight back the way it came. */
  lemma NeverReverses(m: PipeMap, n: nat)
    requires n >= 1 && After(m, n + 1).Some?
    ensures After(m, n + 1).value.move != Neg(After(m, n).value.move)
  {
    var w := After(m, n).value;
    var tile := At(m, w.position).value;
    PipesJoinTwo(tile);
  }

  /** Each step changes the parity of x + y. */
  lemma {:induction false} ParityAfter(m: PipeMap, n: nat)
    requires After(m, n).Some?
    ensures var p := After(m, n).value.position;
      (p.0 + p.1 - m.start.0 - m.start.1 - n) % 2 == 0
  {
    if n > 0 {
      ParityAfter(m, n - 1);
      var w := After(m, n - 1).value;
      var p := After(m, n).value.position;
      var before := w.position.0 + w.position.1 - m.start.0 - m.start.1 - (n - 1);
      var after := p.0 + p.1 - m.start.0 - m.start.1 - n;
      assert after == before || after == before - 2;
      EvenStep(before, after);
    }
  }

  lemma EvenStep(a: int, b: int)
    requires a % 2 == 0 && (b == a || b == a - 2)
    ensures b % 2 == 0
  {
  }

  /** So a walk back on its start has taken an even number of steps. */
  lemma ReturnIsEven(m: PipeMap, n: nat)
    requires FirstReturn(m, n)
    ensures n % 2 == 0
  {
    ParityAfter(m, n);
  }

  /** `getLoopLength`, with at most `fuel` steps: the number of steps
    * until the walk is back on the start; a failure when a tile is not a
    * pipe or `fuel` steps were not enough. */
  method LoopLength(m: PipeMap, fuel: nat) returns (r: Result<nat>)
    ensures r.Success? ==> r.value <= fuel && FirstReturn(m, r.value)
    ensures r.Failure? ==> forall n :: 0 <= n <= fuel ==> !FirstReturn(m, n)
  {
    var move: Offset := (0, 0);
    var position := m.start;
    var length: nat := 0;
    while length < fuel
      invariant length <= fuel
      invariant After(m, length) == Some(Walker(position, move))
      invariant forall k :: 1 <= k <= length ==> After(m, k).Some? && After(m, k).value.position != m.start
    {
      var pipe := At(m, position);
      if pipe.None? || Offsets(pipe.value).None? {
        NoReturnYet(m, length);
        return Failure("the walk is on a tile that is not a pipe");
      }
      ghost var before := Walker(position, move);
      move := NextMove(Offsets(pipe.value).value, move);
      position := Plus(position, move);
      assert Step(m, before) == Some(Walker(position, move));
      length := length + 1;
      if position == m.start {
        return Success(length);
      }
    }
    NoReturnYet(m, length);
    return Failure("no return within the step limit");
  }

  /** Without a return in the first `n` steps, no first return up to `n`,
    * nor ever when the walk cannot go on from there. */
  lemma NoReturnYet(m: PipeMap, n: nat)
    requires forall k :: 1 <= k <= n ==> After(m, k).Some? && After(m, k).value.position != m.start
    ensures forall k :: 0 <= k <= n ==> !FirstReturn(m, k)
    ensures After(m, n).Some? && Step(m, After(m, n).value).None? ==> forall k :: !FirstReturn(m, k)
  {
    if After(m, n).Some? && Step(m, After(m, n).value).None? {
      forall k | k > n
        ensures After(m, k).None?
      {
        StuckForever(m, n + 1, k);
      }
    }
  }

  /** Once the walk has failed, it stays failed. */
  lemma {:induction false} StuckForever(m: PipeMap, n: nat, k: nat)
    requires After(m, n).None? && n <= k
    ensures After(m, k).None?
    decreases k - n
  {
    if n < k {
      StuckForever(m, n + 1, k);
    }
  }

  /** Part 1: half the length of the loop of the loaded map; the length
    * is even, so the half is whole. */
  method Part1(lines: seq<string>, fuel: nat) returns (r: Result<nat>)
    ensures r.Success? ==> Loaded(lines).Some? && FirstReturn(Loaded(lines).value, 2 * r.value)
    ensures r.Failure? ==> (Loaded(lines).None?
      || forall n :: 0 <= n <= fuel ==> !FirstReturn(Loaded(lines).value, n))
  {
    var start := FindStart(lines);
    var replaced: Option<char> := None;
    if start.0 != -1 {
      var inferred := InferStart(lines, start);
      if inferred.Thrown? {
        return Failure("a neighbour of the start is not a pipe");
      }
      if inferred.Picked? {
        FirstFitMeaning(FitResults(lines, start), 0);
        replaced := Some(PipeOrder[inferred.index]);
      }
    }
    var m := PipeMap(start, lines, replaced);
    assert Loaded(lines) == Some(m);
    var length := LoopLength(m, fuel);
    if length.Failure? {
      return Failure(length.message);
    }
    ReturnIsEven(m, length.value);
    assert length.value == 2 * (length.value / 2);
    return Success(length.value / 2);
  }
}
