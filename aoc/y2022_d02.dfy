/** 2022 day 2: a rock-paper-scissors strategy guide. Each line pairs the
    opponent's code (A/B/C) with a response code (X/Y/Z). */
module Day2022_02 {
  import opened Common

  datatype Sign = Rock | Paper | Scissor
  datatype Outcome = Win | Lose | Draw
  datatype InputCode = A | B | C
  datatype OutputCode = X | Y | Z
  datatype Strategy = Strategy(input: InputCode, output: OutputCode)

  /** An assignment of a sign to each response code. */
  datatype OutputMapping = OutputMapping(x: Sign, y: Sign, z: Sign)

  function ResultScore(r: Outcome): (n: nat)
    ensures n in {0, 3, 6}
  {
    match r
    case Win => 6
    case Draw => 3
    case Lose => 0
  }

  function SignScore(s: Sign): (n: nat)
    ensures 1 <= n <= 3
  {
    match s
    case Rock => 1
    case Paper => 2
    case Scissor => 3
  }

  function OutputToResult(o: OutputCode): Outcome
  {
    match o
    case X => Lose
    case Y => Draw
    case Z => Win
  }

  function InputSign(i: InputCode): Sign
  {
    match i
    case A => Rock
    case B => Paper
    case C => Scissor
  }

  /** The sign each sign defeats. */
  function Beats(s: Sign): Sign
  {
    match s
    case Rock => Scissor
    case Scissor => Paper
    case Paper => Rock
  }

  /** lodash `invert(beats)`: the sign that defeats `s`. */
  function Looses(s: Sign): (r: Sign)
    ensures Beats(r) == s
  {
    if Beats(Rock) == s then Rock
    else if Beats(Paper) == s then Paper
    else Scissor
  }

  /** `beats` is a three-cycle, and `looses` undoes it in both orders. */
  lemma BeatsCycle(s: Sign)
    ensures Beats(s) != s && Beats(Beats(s)) != s && Beats(Beats(Beats(s))) == s
    ensures Looses(Beats(s)) == s && Beats(Looses(s)) == s
  {
  }

  function GetMatchResult(otherSign: Sign, mySign: Sign): (r: Outcome)
    ensures r == Draw <==> otherSign == mySign
    ensures r == Win <==> Beats(mySign) == otherSign
    ensures r == Lose <==> Beats(otherSign) == mySign
  {
    if otherSign == mySign then Draw
    else if Beats(mySign) == otherSign then Win
    else Lose
  }

  function MapOutput(m: OutputMapping, o: OutputCode): Sign
  {
    match o
    case X => m.x
    case Y => m.y
    case Z => m.z
  }

  /** A part-1 round: the response code is read as a sign through `m`. */
  function Part1Round(m: OutputMapping, st: Strategy): (n: int)
    ensures 1 <= n <= 9
  {
    var otherSign := InputSign(st.input);
    var mySign := MapOutput(m, st.output);
    SignScore(mySign) + ResultScore(GetMatchResult(otherSign, mySign))
  }

  function Part1Total(m: OutputMapping, strategies: seq<Strategy>): (n: int)
    ensures |strategies| <= n <= 9 * |strategies|
  {
    if strategies == [] then 0
    else Part1Total(m, strategies[..|strategies| - 1]) + Part1Round(m, strategies[|strategies| - 1])
  }

  predicate Injective(m: OutputMapping)
  {
    m.x != m.y && m.y != m.z && m.x != m.z
  }

  /** The six assignments of distinct signs to X, Y, Z. */
  function Permutations(): (r: seq<OutputMapping>)
    ensures |r| == 6
    ensures forall i :: 0 <= i < |r| ==> Injective(r[i])
  {
    [ OutputMapping(Rock, Paper, Scissor), OutputMapping(Rock, Scissor, Paper),
      OutputMapping(Paper, Rock, Scissor), OutputMapping(Paper, Scissor, Rock),
      OutputMapping(Scissor, Rock, Paper), OutputMapping(Scissor, Paper, Rock) ]
  }

  lemma PermutationsComplete(m: OutputMapping)
    requires Injective(m)
    ensures m in Permutations()
  {
  }

  /** First answer: the best total over every assignment of signs to codes. */
  function Part1(strategies: seq<Strategy>): (r: int)
    ensures IsMax(r, seq(6, i requires 0 <= i < 6 => Part1Total(Permutations()[i], strategies)))
  {
    Max(seq(6, i requires 0 <= i < 6 => Part1Total(Permutations()[i], strategies)))
  }

  /** No assignment of distinct signs scores more than the first answer. */
  lemma Part1IsBest(strategies: seq<Strategy>, m: OutputMapping)
    requires Injective(m)
    ensures Part1Total(m, strategies) <= Part1(strategies)
  {
    PermutationsComplete(m);
    var totals := seq(6, i requires 0 <= i < 6 => Part1Total(Permutations()[i], strategies));
    var i :| 0 <= i < 6 && Permutations()[i] == m;
    assert totals[i] == Part1Total(m, strategies);
  }

  /** The sign to play so that the round ends in `result`. */
  function ChooseSign(otherSign: Sign, result: Outcome): (mySign: Sign)
    ensures GetMatchResult(otherSign, mySign) == result
  {
    match result
    case Lose => Beats(otherSign)
    case Draw => otherSign
    case Win => Looses(otherSign)
  }

  /** A part-2 round: the response code is the wanted result. */
  function Part2Round(st: Strategy): (n: int)
    ensures 1 <= n <= 9
  {
    var otherSign := InputSign(st.input);
    var result := OutputToResult(st.output);
    SignScore(ChooseSign(otherSign, result)) + ResultScore(result)
  }

  /** Second answer, the sum of the part-2 round scores. */
  function Part2(strategies: seq<Strategy>): (n: int)
    ensures |strategies| <= n <= 9 * |strategies|
  {
    if strategies == [] then 0
    else Part2(strategies[..|strategies| - 1]) + Part2Round(strategies[|strategies| - 1])
  }
}
