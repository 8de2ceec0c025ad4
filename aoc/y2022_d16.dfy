/** 2022 day 16: valves with flow rates joined by tunnels. From valve "AA"
    with 30 minutes left, each minute either moves along a tunnel or opens
    the current valve; an opened valve releases its rate every remaining
    minute. The search tries every option recursively and keeps the best.
    The source memoises the search in a cache keyed by the minutes left,
    the valve and the opened valves; the cache only avoids recomputation
    and is not modelled. */
module Day2022_16 {
  import opened Common

  datatype Valve = Valve(name: string, rate: nat, paths: seq<string>)

  /** The minute count at which each opened valve was opened, by name. */
  type ValveStatus = map<string, int>

  datatype Solution = Solution(status: ValveStatus, release: int)

  /** Every valve is stored under its own name and every tunnel leads to a
      known valve (a tunnel to an unknown valve makes the source read
      `undefined` and throw). */
  ghost predicate Closed(valves: map<string, Valve>)
  {
    forall n {:trigger valves[n]} :: n in valves ==> valves[n].name == n && forall p :: p in valves[n].paths ==> p in valves
  }

  ghost predicate Known(valves: map<string, Valve>, v: Valve)
  {
    v.name in valves && valves[v.name] == v
  }

  /** `after` keeps every entry of `before`, and every valve it adds has a
      positive rate and was opened with between 1 and `m` - 1 minutes left. */
  ghost predicate Grows(valves: map<string, Valve>, before: ValveStatus, after: ValveStatus, m: int)
  {
    && (forall k :: k in before ==> k in after && after[k] == before[k])
    && (forall k :: k in after && k !in before ==> k in valves && valves[k].rate > 0 && 1 <= after[k] < m)
  }

  /** A solution found with `m` minutes left from the opened valves
      `before`: a non-negative release and a status grown from `before`. */
  ghost predicate Fits(valves: map<string, Valve>, before: ValveStatus, s: Solution, m: int)
  {
    s.release >= 0 && Grows(valves, before, s.status, m)
  }

  /** lodash `maxBy(s, solution => solution.release)`: the first solution
      with the largest release. */
  function MaxBy(s: seq<Solution>): (r: Solution)
    requires s != []
    ensures r in s
    ensures forall i :: 0 <= i < |s| ==> s[i].release <= r.release
  {
    if |s| == 1 then s[0]
    else
      var m := MaxBy(s[..|s| - 1]);
      assert s == s[..|s| - 1] + [s[|s| - 1]];
      if s[|s| - 1].release > m.release then s[|s| - 1] else m
  }

  /** The valve is still closed and releases something when opened. */
  predicate Openable(v: Valve, status: ValveStatus)
  {
    v.name !in status && v.rate > 0
  }

  /** `search`: the best release reachable from valve `v` with `m` minutes
      left, given the valves already opened. */
  function Search(valves: map<string, Valve>, v: Valve, m: int, status: ValveStatus): (r: Solution)
    requires m >= 1 && Closed(valves) && Known(valves, v)
    decreases m, 0, 0
  {
    if m == 1 then Solution(status, 0)
    else
      var options := Options(valves, v, m, status);
      if options == [] then Solution(status, 0) else MaxBy(options)
  }

  /** The solutions `search` chooses from: one per tunnel, then, when the
      valve is still closed and has a positive rate, opening it now. */
  function Options(valves: map<string, Valve>, v: Valve, m: int, status: ValveStatus): (r: seq<Solution>)
    requires m >= 2 && Closed(valves) && Known(valves, v)
    decreases m - 1, 2, 0
  {
    var moves := PathSolutions(valves, v.paths, m - 1, status);
    if Openable(v, status) then
      var afterOpen := Search(valves, v, m - 1, status[v.name := m - 1]);
      moves + [Solution(afterOpen.status, afterOpen.release + Gain(m, v.rate))]
    else moves
  }

  /** The searches after moving along each of `paths`, in order. */
  function PathSolutions(valves: map<string, Valve>, paths: seq<string>, m: int, status: ValveStatus): (r: seq<Solution>)
    requires m >= 1 && Closed(valves)
    requires forall p :: p in paths ==> p in valves
    decreases m, 1, |paths|
  {
    if paths == [] then []
    else [Search(valves, valves[paths[0]], m, status)] + PathSolutions(valves, paths[1..], m, status)
  }

  /** One search per tunnel, in the tunnels' order. */
  lemma {:induction false} PathSolutionsAt(valves: map<string, Valve>, paths: seq<string>, m: int, status: ValveStatus)
    requires m >= 1 && Closed(valves)
    requires forall p :: p in paths ==> p in valves
    ensures |PathSolutions(valves, paths, m, status)| == |paths|
    ensures forall i :: 0 <= i < |paths| ==> PathSolutions(valves, paths, m, status)[i] == Search(valves, valves[paths[i]], m, status)
  {
    if paths != [] {
      PathSolutionsAt(valves, paths[1..], m, status);
    }
  }

  /** What opening a valve of rate `rate` with `m` minutes left releases:
      its rate in each of the `m` - 1 minutes after the one spent opening. */
  function Gain(m: int, rate: nat): (r: nat)
    requires m >= 1
    ensures m > 1 && rate > 0 ==> r >= rate
  {
    (m - 1) * rate
  }

  /** What `search` chooses from, entry by entry. */
  lemma OptionsShape(valves: map<string, Valve>, v: Valve, m: int, status: ValveStatus)
    requires m >= 2 && Closed(valves) && Known(valves, v)
    ensures |Options(valves, v, m, status)| == |v.paths| + (if Openable(v, status) then 1 else 0)
    ensures forall i :: 0 <= i < |v.paths| ==>
      Options(valves, v, m, status)[i] == Search(valves, valves[v.paths[i]], m - 1, status)
    ensures Openable(v, status) ==>
      Options(valves, v, m, status)[|v.paths|].release
        == Search(valves, v, m - 1, status[v.name := m - 1]).release + Gain(m, v.rate)
    ensures Openable(v, status) ==>
      Options(valves, v, m, status)[|v.paths|].status == Search(valves, v, m - 1, status[v.name := m - 1]).status
  {
    var options := Options(valves, v, m, status);
    var moves := PathSolutions(valves, v.paths, m - 1, status);
    PathSolutionsAt(valves, v.paths, m - 1, status);
    if Openable(v, status) {
      var afterOpen := Search(valves, v, m - 1, status[v.name := m - 1]);
      var opening := Solution(afterOpen.status, afterOpen.release + Gain(m, v.rate));
      assert options == moves + [opening];
      assert options[|v.paths|] == opening;
      forall i | 0 <= i < |v.paths|
        ensures options[i] == moves[i]
      {
      }
    } else {
      assert options == moves;
    }
  }

  /** With one minute left nothing more is released; otherwise the release
      is never negative, every valve opened before stays open with its
      minute unchanged (the caller's status is copied, not changed), and
      every valve newly opened has a positive rate and was opened with
      between 1 and `m` - 1 minutes left. */
  lemma {:induction false} SearchFits(valves: map<string, Valve>, v: Valve, m: int, status: ValveStatus)
    requires m >= 1 && Closed(valves) && Known(valves, v)
    ensures Fits(valves, status, Search(valves, v, m, status), m)
    ensures m == 1 ==> Search(valves, v, m, status) == Solution(status, 0)
    decreases m, 1
  {
    if m > 1 {
      var options := Options(valves, v, m, status);
      if options != [] {
        var j :| 0 <= j < |options| && options[j] == MaxBy(options);
        OptionFits(valves, v, m, status, j);
      }
    }
  }

  /** Each option `search` chooses from has the properties of `SearchFits`. */
  lemma {:induction false} OptionFits(valves: map<string, Valve>, v: Valve, m: int, status: ValveStatus, j: int)
    requires m >= 2 && Closed(valves) && Known(valves, v)
    requires 0 <= j < |Options(valves, v, m, status)|
    ensures Fits(valves, status, Options(valves, v, m, status)[j], m)
    decreases m, 0
  {
    OptionsShape(valves, v, m, status);
    if j < |v.paths| {
      var next := valves[v.paths[j]];
      SearchFits(valves, next, m - 1, status);
      FitsLater(valves, status, Search(valves, next, m - 1, status), m - 1);
    } else {
      var after := status[v.name := m - 1];
      var afterOpen := Search(valves, v, m - 1, after);
      SearchFits(valves, v, m - 1, after);
      GrowsOpen(valves, v, m, status, afterOpen.status);
    }
  }

  lemma FitsLater(valves: map<string, Valve>, status: ValveStatus, s: Solution, m: int)
    requires Fits(valves, status, s, m)
    ensures Fits(valves, status, s, m + 1)
  {
  }

  lemma GrowsOpen(valves: map<string, Valve>, v: Valve, m: int, status: ValveStatus, after: ValveStatus)
    requires m >= 2 && Known(valves, v) && Openable(v, status)
    requires Grows(valves, status[v.name := m - 1], after, m - 1)
    ensures Grows(valves, status, after, m)
  {
  }

  /** One minute's choice: walk a tunnel or open the current valve. */
  datatype Step = Move(to: string) | Open

  /** The release of following `plan` from `v` with `m` minutes left, or
      None when a step is not allowed: a move along a tunnel the valve does
      not have, or opening a valve that is open already or has rate 0.
      The plan ends when it runs out or one minute is left. */
  ghost function PlanRelease(valves: map<string, Valve>, v: Valve, m: int, status: ValveStatus, plan: seq<Step>): Option<int>
    requires m >= 1 && Closed(valves) && Known(valves, v)
    decreases |plan|
  {
    if m == 1 || plan == [] then Some(0)
    else match plan[0]
      case Move(p) =>
        if p in v.paths then PlanRelease(valves, valves[p], m - 1, status, plan[1..]) else None
      case Open =>
        if Openable(v, status) then
          match PlanRelease(valves, v, m - 1, status[v.name := m - 1], plan[1..])
          case None => None
          case Some(x) => Some(x + Gain(m, v.rate))
        else None
  }

  /** No allowed plan releases more than the search finds. */
  lemma {:induction false} SearchBest(valves: map<string, Valve>, v: Valve, m: int, status: ValveStatus, plan: seq<Step>)
    requires m >= 1 && Closed(valves) && Known(valves, v)
    requires PlanRelease(valves, v, m, status, plan).Some?
    ensures PlanRelease(valves, v, m, status, plan).value <= Search(valves, v, m, status).release
    decreases |plan|, 1
  {
    SearchFits(valves, v, m, status);
    if m > 1 && plan != [] {
      var options := Options(valves, v, m, status);
      var k := FirstStepBound(valves, v, m, status, plan);
      assert options[k].release <= MaxBy(options).release;
    }
  }

  /** A plan's first step is one of the options `search` weighs, and the
      plan releases no more than that option. */
  lemma {:induction false} FirstStepBound(valves: map<string, Valve>, v: Valve, m: int, status: ValveStatus, plan: seq<Step>)
    returns (k: int)
    requires m >= 2 && Closed(valves) && Known(valves, v) && plan != []
    requires PlanRelease(valves, v, m, status, plan).Some?
    ensures 0 <= k < |Options(valves, v, m, status)|
    ensures PlanRelease(valves, v, m, status, plan).value <= Options(valves, v, m, status)[k].release
    decreases |plan|, 0
  {
    OptionsShape(valves, v, m, status);
    match plan[0]
    case Move(p) =>
      k :| 0 <= k < |v.paths| && v.paths[k] == p;
      var next := valves[p];
      assert PlanRelease(valves, v, m, status, plan) == PlanRelease(valves, next, m - 1, status, plan[1..]);
      SearchBest(valves, next, m - 1, status, plan[1..]);
      assert Options(valves, v, m, status)[k] == Search(valves, next, m - 1, status);
    case Open =>
      k := |v.paths|;
      var after := status[v.name := m - 1];
      var rest := PlanRelease(valves, v, m - 1, after, plan[1..]);
      assert PlanRelease(valves, v, m, status, plan) == Some(rest.value + Gain(m, v.rate));
      SearchBest(valves, v, m - 1, after, plan[1..]);
  }

  /** The search's release is that of some allowed plan. */
  lemma {:induction false} SearchAchieved(valves: map<string, Valve>, v: Valve, m: int, status: ValveStatus)
    returns (plan: seq<Step>)
    requires m >= 1 && Closed(valves) && Known(valves, v)
    ensures PlanRelease(valves, v, m, status, plan) == Some(Search(valves, v, m, status).release)
    decreases m, 1
  {
    plan := [];
    if m > 1 {
      var options := Options(valves, v, m, status);
      if options != [] {
        var j :| 0 <= j < |options| && options[j] == MaxBy(options);
        plan := OptionAchieved(valves, v, m, status, j);
      }
    }
  }

  /** Each option `search` weighs is the release of some allowed plan. */
  lemma {:induction false} OptionAchieved(valves: map<string, Valve>, v: Valve, m: int, status: ValveStatus, j: int)
    returns (plan: seq<Step>)
    requires m >= 2 && Closed(valves) && Known(valves, v)
    requires 0 <= j < |Options(valves, v, m, status)|
    ensures PlanRelease(valves, v, m, status, plan) == Some(Options(valves, v, m, status)[j].release)
    decreases m, 0
  {
    OptionsShape(valves, v, m, status);
    if j < |v.paths| {
      var next := valves[v.paths[j]];
      var rest := SearchAchieved(valves, next, m - 1, status);
      plan := [Move(v.paths[j])] + rest;
      assert plan[1..] == rest;
      assert PlanRelease(valves, v, m, status, plan) == PlanRelease(valves, next, m - 1, status, rest);
    } else {
      var after := status[v.name := m - 1];
      var rest := SearchAchieved(valves, v, m - 1, after);
      plan := [Open] + rest;
      assert plan[1..] == rest;
      var afterOpen := Search(valves, v, m - 1, after);
      assert PlanRelease(valves, v, m, status, plan) == Some(afterOpen.release + Gain(m, v.rate));
    }
  }

  /** `new Map(valves.map(valve => [valve.name, valve]))`: a later valve
      with the same name replaces an earlier one. */
  function ValvesMap(list: seq<Valve>): (r: map<string, Valve>)
    ensures forall n :: n in r ==> r[n].name == n && r[n] in list
    ensures forall i :: 0 <= i < |list| ==> list[i].name in r
  {
    if list == [] then map[]
    else
      var last := list[|list| - 1];
      var r := ValvesMap(list[..|list| - 1])[last.name := last];
      assert forall i :: 0 <= i < |list| - 1 ==> list[i] == list[..|list| - 1][i];
      r
  }

  /** Every tunnel of the input leads to a valve of the input. */
  ghost predicate TunnelsKnown(list: seq<Valve>)
  {
    forall i, p :: 0 <= i < |list| && p in list[i].paths ==> exists j :: 0 <= j < |list| && list[j].name == p
  }

  lemma MapClosed(list: seq<Valve>)
    requires TunnelsKnown(list)
    ensures Closed(ValvesMap(list))
  {
    var valves := ValvesMap(list);
    forall n, p | n in valves && p in valves[n].paths
      ensures p in valves
    {
      var i :| 0 <= i < |list| && list[i] == valves[n];
      var j :| 0 <= j < |list| && list[j].name == p;
    }
  }

  ghost predicate HasStart(list: seq<Valve>)
  {
    exists i :: 0 <= i < |list| && list[i].name == "AA"
  }

  /** `part1`: the best release from "AA" in 30 minutes, nothing open. */
  function Part1(list: seq<Valve>): int
    requires TunnelsKnown(list) && HasStart(list)
  {
    MapClosed(list);
    var valves := ValvesMap(list);
    Search(valves, valves["AA"], 30, map[]).release
  }

  /** `part1` is the largest release over every allowed 30-minute plan. */
  lemma Part1Best(list: seq<Valve>)
    requires TunnelsKnown(list) && HasStart(list)
    ensures forall plan :: PlanRelease(ValvesMap(list), ValvesMap(list)["AA"], 30, map[], plan).Some? ==>
      PlanRelease(ValvesMap(list), ValvesMap(list)["AA"], 30, map[], plan).value <= Part1(list)
    ensures exists plan :: PlanRelease(ValvesMap(list), ValvesMap(list)["AA"], 30, map[], plan) == Some(Part1(list))
  {
    MapClosed(list);
    var valves := ValvesMap(list);
    forall plan | PlanRelease(valves, valves["AA"], 30, map[], plan).Some?
      ensures PlanRelease(valves, valves["AA"], 30, map[], plan).value <= Part1(list)
    {
      SearchBest(valves, valves["AA"], 30, map[], plan);
    }
    var best := SearchAchieved(valves, valves["AA"], 30, map[]);
  }
}
