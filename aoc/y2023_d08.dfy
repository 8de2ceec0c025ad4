/** 2023 day 8: a walk through a network of nodes, each with a left and a
    right neighbour. The instructions are followed cyclically; `moves`
    counts the steps until the walk stands on a final node: "ZZZ", or in
    ghost mode any node whose name ends in 'Z'. */
module Day2023_08 {
  import opened Common

  datatype Move = L | R

  datatype Connections = Connections(left: string, right: string)

  /** The instructions and, per node name, its two neighbours. */
  datatype Network = Network(moves: seq<Move>, nodes: map<string, Connections>)

  /** The neighbour a move selects. */
  function Follow(c: Connections, m: Move): string
  {
    match m
    case L => c.left
    case R => c.right
  }

  predicate EndsWithZ(name: string)
  {
    |name| > 0 && name[|name| - 1] == 'Z'
  }

  /** The condition that ends the walk. */
  predicate Final(location: string, ghostMode: bool)
  {
    if ghostMode then EndsWithZ(location) else location == "ZZZ"
  }

  /** The node reached after `n` steps, the step numbered `k` following
    * instruction `k mod |moves|`; none once a step has no node to read
    * (an unknown node, or no instructions at all, where the source reads
    * `undefined` and then fails). */
  function Position(net: Network, start: string, n: nat): Option<string>
  {
    if n == 0 then Some(start)
    else
      match Position(net, start, n - 1)
      case None => None
      case Some(loc) =>
        if loc in net.nodes && |net.moves| > 0
        then Some(Follow(net.nodes[loc], net.moves[(n - 1) % |net.moves|]))
        else None
  }

  /** The walk first stands on a final node after exactly `n` steps. */
  ghost predicate FirstArrival(net: Network, start: string, ghostMode: bool, n: nat)
  {
    && Position(net, start, n).Some? && Final(Position(net, start, n).value, ghostMode)
    && forall k :: 0 <= k < n ==> Position(net, start, k).Some? && !Final(Position(net, start, k).value, ghostMode)
  }

  /** There is at most one first arrival. */
  lemma FirstArrivalUnique(net: Network, start: string, ghostMode: bool, n: nat, m: nat)
    requires FirstArrival(net, start, ghostMode, n) && FirstArrival(net, start, ghostMode, m)
    ensures n == m
  {
  }

  /** A final start needs no step. */
  lemma FinalStart(net: Network, start: string, ghostMode: bool)
    requires Final(start, ghostMode)
    ensures FirstArrival(net, start, ghostMode, 0)
  {
  }

  /** The walk from where it stands after `n` steps, with the instructions
    * rotated by `n`, is the rest of the walk. */
  lemma {:induction false} PositionShift(net: Network, start: string, n: nat, k: nat)
    requires |net.moves| > 0 && n % |net.moves| == 0 && Position(net, start, n).Some?
    ensures Position(net, start, n + k) == Position(net, Position(net, start, n).value, k)
  {
    if k > 0 {
      PositionShift(net, start, n, k - 1);
      ShiftMod(n, k - 1, |net.moves|);
    }
  }

  lemma ShiftMod(n: nat, k: nat, len: nat)
    requires len > 0 && n % len == 0
    ensures (n + k) % len == k % len
  {
    var q := n / len;
    assert n == q * len;
    ModUnique(n + k, len, q + (k / len), k % len);
  }

  /** Once the walk is back on its start at a multiple of the instruction
    * count without having arrived, it never arrives: it repeats forever. */
  lemma {:induction false} CycleNeverArrives(net: Network, start: string, ghostMode: bool, p: nat, k: nat)
    requires |net.moves| > 0 && p > 0 && p % |net.moves| == 0
    requires Position(net, start, p) == Some(start)
    requires forall j :: 0 <= j < p ==> Position(net, start, j).Some? && !Final(Position(net, start, j).value, ghostMode)
    ensures Position(net, start, k).Some? && !Final(Position(net, start, k).value, ghostMode)
    decreases k
  {
    if k >= p {
      CycleNeverArrives(net, start, ghostMode, p, k - p);
      PositionShift(net, start, p, k - p);
      assert p + (k - p) == k;
    }
  }

  /** `moves`, tried for at most `fuel` steps: the number of steps to the
    * first final node; a failure when a step has no node to read, or when
    * `fuel` steps were not enough. */
  method CountMoves(net: Network, start: string, ghostMode: bool, fuel: nat) returns (r: Result<nat>)
    ensures r.Success? ==> r.value <= fuel && FirstArrival(net, start, ghostMode, r.value)
    ensures r.Failure? ==> forall n :: 0 <= n <= fuel ==> !FirstArrival(net, start, ghostMode, n)
  {
    var location := start;
    var result: nat := 0;
    while !Final(location, ghostMode)
      invariant result <= fuel
      invariant Position(net, start, result) == Some(location)
      invariant forall k :: 0 <= k < result ==> Position(net, start, k).Some? && !Final(Position(net, start, k).value, ghostMode)
      decreases fuel + 1 - result
    {
      if result == fuel {
        NoArrivalYet(net, start, ghostMode, result);
        return Failure("no final node within the step limit");
      }
      if location !in net.nodes || |net.moves| == 0 {
        NoArrivalYet(net, start, ghostMode, result + 1);
        return Failure("no node to read");
      }
      var nextMove := net.moves[result % |net.moves|];
      location := Follow(net.nodes[location], nextMove);
      result := result + 1;
    }
    return Success(result);
  }

  /** Without a final node among the first `n` positions, no first arrival
    * falls before `n`; nor at `n` when the walk is stuck there. */
  lemma NoArrivalYet(net: Network, start: string, ghostMode: bool, n: nat)
    requires forall k :: 0 <= k < n ==> Position(net, start, k).Some? && !Final(Position(net, start, k).value, ghostMode)
    ensures forall m :: 0 <= m < n ==> !FirstArrival(net, start, ghostMode, m)
    ensures Position(net, start, n).None? || !Final(Position(net, start, n).value, ghostMode)
      ==> forall m :: 0 <= m <= n ==> !FirstArrival(net, start, ghostMode, m)
  {
  }

  /** Part 1: from "AAA" to "ZZZ". */
  method Part1(net: Network, fuel: nat) returns (r: Result<nat>)
    ensures r.Success? ==> FirstArrival(net, "AAA", false, r.value)
    ensures r.Failure? ==> forall n :: 0 <= n <= fuel ==> !FirstArrival(net, "AAA", false, n)
  {
    r := CountMoves(net, "AAA", false, fuel);
  }

  predicate EndsWithA(name: string)
  {
    |name| > 0 && name[|name| - 1] == 'A'
  }

  /** Part 2 before its least common multiple: the ghost-mode step count of
    * every node whose name ends in 'A'. */
  method Part2Counts(net: Network, fuel: nat) returns (r: Result<map<string, nat>>)
    ensures r.Success? ==> r.value.Keys == set s | s in net.nodes && EndsWithA(s)
    ensures r.Success? ==> forall s :: s in r.value ==> FirstArrival(net, s, true, r.value[s])
    ensures r.Failure? ==> exists s :: (s in net.nodes && EndsWithA(s)
      && forall n :: 0 <= n <= fuel ==> !FirstArrival(net, s, true, n))
  {
    var starts := set s | s in net.nodes && EndsWithA(s);
    var todo := starts;
    var counts: map<string, nat> := map[];
    while todo != {}
      invariant todo <= starts && counts.Keys == starts - todo
      invariant forall s :: s in counts ==> FirstArrival(net, s, true, counts[s])
      decreases todo
    {
      var s :| s in todo;
      var c := CountMoves(net, s, true, fuel);
      if c.Failure? {
        return Failure(c.message);
      }
      counts := counts[s := c.value];
      todo := todo - {s};
    }
    return Success(counts);
  }
}
