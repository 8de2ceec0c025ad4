/** 2022 day 19: robots collect ore, clay, obsidian and geodes; each
    minute at most one robot is built from a blueprint's costs. `optimize`
    searches the build orders for the most geodes, with two prunings: a
    robot that could have been built while waiting stays forbidden until
    something is built, and no more robots of a material are built than
    the largest cost in that material. The memo cache is not modelled:
    `Best` is the value of the search without it. */
module Day2022_19 {
  import opened Common

  /** Four counts, indexed ore, clay, obsidian, geode. */
  type Quad = s: seq<int> | |s| == 4 witness [0, 0, 0, 0]

  type Flags = s: seq<bool> | |s| == 4 witness [true, true, true, true]

  /** The cost of each of the four robots. */
  type Blueprint = s: seq<Quad> | |s| == 4 witness [Zero, Zero, Zero, Zero]

  const Zero: Quad := [0, 0, 0, 0]

  const AllAllowed: Flags := [true, true, true, true]

  /** The start of every search: no materials and one ore robot. */
  const NoMaterials: Quad := [0, 0, 0, 0]
  const OneOreRobot: Quad := [1, 0, 0, 0]

  /** The minutes of part 1 and part 2. */
  const Part1Minutes: nat := 24
  const Part2Minutes: nat := 32

  predicate NonNeg(q: Quad)
  {
    q[0] >= 0 && q[1] >= 0 && q[2] >= 0 && q[3] >= 0
  }

  /** `addMaterials` */
  function AddMaterials(a: Quad, b: Quad): (r: Quad)
    ensures forall i :: 0 <= i < 4 ==> r[i] == a[i] + b[i]
  {
    seq(4, i requires 0 <= i < 4 => a[i] + b[i])
  }

  /** `subtractMaterials` */
  function SubtractMaterials(a: Quad, b: Quad): (r: Quad)
    ensures forall i :: 0 <= i < 4 ==> r[i] == a[i] - b[i]
  {
    seq(4, i requires 0 <= i < 4 => a[i] - b[i])
  }

  /** Subtracting what was added gives the materials back. */
  lemma AddSubtract(a: Quad, b: Quad)
    ensures SubtractMaterials(AddMaterials(a, b), b) == a
  {
    var r := SubtractMaterials(AddMaterials(a, b), b);
    assert forall i :: 0 <= i < 4 ==> r[i] == a[i];
  }

  /** Every requirement of `cost` is met by `materials`. */
  predicate Covers(materials: Quad, cost: Quad)
  {
    forall i :: 0 <= i < 4 ==> materials[i] >= cost[i]
  }

  /** `buildableBlueprints`: allowed, and paid for by the materials held
      before this minute's collection. */
  function Buildable(bp: Blueprint, materials: Quad, allowed: Flags): (b: Flags)
    ensures forall i :: 0 <= i < 4 ==> (b[i] <==> allowed[i] && Covers(materials, bp[i]))
  {
    seq(4, i requires 0 <= i < 4 => allowed[i] && Covers(materials, bp[i]))
  }

  /** The robots still allowed after waiting: none that could have been built. */
  function Disallow(allowed: Flags, buildable: Flags): (r: Flags)
    ensures forall i :: 0 <= i < 4 ==> (r[i] <==> allowed[i] && !buildable[i])
  {
    seq(4, i requires 0 <= i < 4 => allowed[i] && !buildable[i])
  }

  /** One more robot of kind `i`. */
  function Bump(robots: Quad, i: int): (r: Quad)
    requires 0 <= i < 4
    ensures r[i] == robots[i] + 1 && forall j :: 0 <= j < 4 && j != i ==> r[j] == robots[j]
  {
    robots[i := robots[i] + 1]
  }

  /** The cap rule: geode robots always, others only below the cap. */
  predicate UnderCap(maxRobots: Quad, robots: Quad, i: int)
    requires 0 <= i < 4
  {
    i == 3 || maxRobots[i] > robots[i]
  }

  function Max2(a: int, b: int): (m: int)
    ensures m >= a && m >= b && (m == a || m == b)
  {
    if b > a then b else a
  }

  // ----- the value optimize computes -----

  /** The value of `optimize` without its cache. */
  function Best(bp: Blueprint, maxRobots: Quad, materials: Quad, robots: Quad, allowed: Flags, timeLeft: nat): int
    decreases timeLeft, 1
  {
    if timeLeft == 0 then materials[3]
    else if timeLeft == 1 then materials[3] + robots[3]
    else
      var buildable := Buildable(bp, materials, allowed);
      var waiting := Best(bp, maxRobots, AddMaterials(materials, robots), robots, Disallow(allowed, buildable), timeLeft - 1);
      BestFrom(bp, maxRobots, materials, robots, buildable, timeLeft, 0, waiting)
  }

  /** The loop over robot kinds `idx..3` of `optimize`, starting from
      `solution`: each robot that is buildable and under its cap offers
      the value of building it now. */
  function BestFrom(bp: Blueprint, maxRobots: Quad, materials: Quad, robots: Quad, buildable: Flags,
                    timeLeft: nat, idx: nat, solution: int): int
    requires timeLeft >= 2 && idx <= 4
    decreases timeLeft, 0, 4 - idx
  {
    if idx == 4 then solution
    else
      var next :=
        if buildable[idx] && UnderCap(maxRobots, robots, idx) then
          var built := Best(bp, maxRobots, SubtractMaterials(AddMaterials(materials, robots), bp[idx]),
                            Bump(robots, idx), AllAllowed, timeLeft - 1);
          if built > solution then built else solution
        else solution;
      BestFrom(bp, maxRobots, materials, robots, buildable, timeLeft, idx + 1, next)
  }

  /** `optimize`: the recursive search, with its loop over robot kinds. */
  method Optimize(bp: Blueprint, maxRobots: Quad, materials: Quad, robots: Quad, allowed: Flags, timeLeft: nat)
    returns (solution: int)
    ensures solution == Best(bp, maxRobots, materials, robots, allowed, timeLeft)
    decreases timeLeft
  {
    if timeLeft == 0 {
      return materials[3];
    } else if timeLeft == 1 {
      return materials[3] + robots[3];
    }
    var materialsAfterCollection := AddMaterials(materials, robots);
    var buildable := Buildable(bp, materials, allowed);
    solution := Optimize(bp, maxRobots, materialsAfterCollection, robots, Disallow(allowed, buildable), timeLeft - 1);
    for robotIdx := 0 to 4
      invariant BestFrom(bp, maxRobots, materials, robots, buildable, timeLeft, robotIdx, solution)
        == Best(bp, maxRobots, materials, robots, allowed, timeLeft)
    {
      if buildable[robotIdx] && (robotIdx == 3 || maxRobots[robotIdx] > robots[robotIdx]) {
        var materialsAfterBuild := SubtractMaterials(materialsAfterCollection, bp[robotIdx]);
        var robotsAfterBuild := robots[robotIdx := robots[robotIdx] + 1];
        var buildSolution := Optimize(bp, maxRobots, materialsAfterBuild, robotsAfterBuild, AllAllowed, timeLeft - 1);
        if buildSolution > solution {
          solution := buildSolution;
        }
      }
    }
  }

  // ----- build orders -----

  /** What happens in one minute. */
  datatype Choice = Wait | Build(robot: int)

  /** The materials and robots after following `plan` minute by minute:
      the robots collect, then a robot ordered this minute is paid for and
      joins the team. */
  function Run(bp: Blueprint, materials: Quad, robots: Quad, plan: seq<Choice>): (r: (Quad, Quad))
    decreases |plan|
  {
    if plan == [] then (materials, robots)
    else match plan[0]
      case Wait => Run(bp, AddMaterials(materials, robots), robots, plan[1..])
      case Build(i) =>
        if 0 <= i < 4 then Run(bp, SubtractMaterials(AddMaterials(materials, robots), bp[i]), Bump(robots, i), plan[1..])
        else Run(bp, AddMaterials(materials, robots), robots, plan[1..])
  }

  /** The geodes a build order ends with. */
  function Geodes(bp: Blueprint, materials: Quad, robots: Quad, plan: seq<Choice>): int
  {
    Run(bp, materials, robots, plan).0[3]
  }

  /** A build order `optimize` may follow: each robot is of a known kind,
      allowed, paid for by the materials held before the minute's
      collection, and under its cap; waiting forbids every robot that could
      have been built, building allows all again. */
  ghost predicate Follows(bp: Blueprint, maxRobots: Quad, materials: Quad, robots: Quad, allowed: Flags, plan: seq<Choice>)
    decreases |plan|
  {
    plan == [] ||
    match plan[0]
      case Wait =>
        Follows(bp, maxRobots, AddMaterials(materials, robots), robots, Disallow(allowed, Buildable(bp, materials, allowed)), plan[1..])
      case Build(i) =>
        && 0 <= i < 4 && allowed[i] && Covers(materials, bp[i]) && UnderCap(maxRobots, robots, i)
        && Follows(bp, maxRobots, SubtractMaterials(AddMaterials(materials, robots), bp[i]), Bump(robots, i), AllAllowed, plan[1..])
  }

  /** Whatever `optimize` returns is the geode count of a build order it
      may follow, lasting exactly `timeLeft` minutes. */
  lemma {:induction false} BestAchievable(bp: Blueprint, maxRobots: Quad, materials: Quad, robots: Quad, allowed: Flags, timeLeft: nat)
    returns (plan: seq<Choice>)
    ensures |plan| == timeLeft && Follows(bp, maxRobots, materials, robots, allowed, plan)
    ensures Geodes(bp, materials, robots, plan) == Best(bp, maxRobots, materials, robots, allowed, timeLeft)
    decreases timeLeft, 1
  {
    if timeLeft == 0 {
      plan := [];
    } else {
      var buildable := Buildable(bp, materials, allowed);
      var waiting := Best(bp, maxRobots, AddMaterials(materials, robots), robots, Disallow(allowed, buildable), timeLeft - 1);
      var plan0 := WaitAchievable(bp, maxRobots, materials, robots, allowed, timeLeft);
      if timeLeft == 1 {
        plan := plan0;
      } else {
        plan := BestFromAchievable(bp, maxRobots, materials, robots, allowed, timeLeft, 0, waiting, plan0);
      }
    }
  }

  /** Waiting this minute, then following the best order. */
  lemma {:induction false} WaitAchievable(bp: Blueprint, maxRobots: Quad, materials: Quad, robots: Quad, allowed: Flags, timeLeft: nat)
    returns (plan: seq<Choice>)
    requires timeLeft >= 1
    ensures |plan| == timeLeft && Follows(bp, maxRobots, materials, robots, allowed, plan)
    ensures Geodes(bp, materials, robots, plan)
      == Best(bp, maxRobots, AddMaterials(materials, robots), robots, Disallow(allowed, Buildable(bp, materials, allowed)), timeLeft - 1)
    decreases timeLeft, 0, 0
  {
    var q := BestAchievable(bp, maxRobots, AddMaterials(materials, robots), robots,
                            Disallow(allowed, Buildable(bp, materials, allowed)), timeLeft - 1);
    plan := [Wait] + q;
    assert plan[1..] == q;
  }

  lemma {:induction false} BestFromAchievable(bp: Blueprint, maxRobots: Quad, materials: Quad, robots: Quad, allowed: Flags,
                                              timeLeft: nat, idx: nat, solution: int, plan0: seq<Choice>)
    returns (plan: seq<Choice>)
    requires timeLeft >= 2 && idx <= 4
    requires |plan0| == timeLeft && Follows(bp, maxRobots, materials, robots, allowed, plan0)
    requires Geodes(bp, materials, robots, plan0) == solution
    ensures |plan| == timeLeft && Follows(bp, maxRobots, materials, robots, allowed, plan)
    ensures Geodes(bp, materials, robots, plan) == BestFrom(bp, maxRobots, materials, robots, Buildable(bp, materials, allowed), timeLeft, idx, solution)
    decreases timeLeft, 0, 4 - idx
  {
    var buildable := Buildable(bp, materials, allowed);
    if idx == 4 {
      plan := plan0;
    } else if buildable[idx] && UnderCap(maxRobots, robots, idx) {
      var built := Best(bp, maxRobots, SubtractMaterials(AddMaterials(materials, robots), bp[idx]),
                        Bump(robots, idx), AllAllowed, timeLeft - 1);
      var withBuild := BuildAchievable(bp, maxRobots, materials, robots, allowed, timeLeft, idx);
      if built > solution {
        plan := BestFromAchievable(bp, maxRobots, materials, robots, allowed, timeLeft, idx + 1, built, withBuild);
      } else {
        plan := BestFromAchievable(bp, maxRobots, materials, robots, allowed, timeLeft, idx + 1, solution, plan0);
      }
    } else {
      plan := BestFromAchievable(bp, maxRobots, materials, robots, allowed, timeLeft, idx + 1, solution, plan0);
    }
  }

  /** Building robot `idx` now, then following the best order. */
  lemma {:induction false} BuildAchievable(bp: Blueprint, maxRobots: Quad, materials: Quad, robots: Quad, allowed: Flags,
                                           timeLeft: nat, idx: nat)
    returns (plan: seq<Choice>)
    requires timeLeft >= 2 && idx < 4
    requires allowed[idx] && Covers(materials, bp[idx]) && UnderCap(maxRobots, robots, idx)
    ensures |plan| == timeLeft && Follows(bp, maxRobots, materials, robots, allowed, plan)
    ensures Geodes(bp, materials, robots, plan)
      == Best(bp, maxRobots, SubtractMaterials(AddMaterials(materials, robots), bp[idx]), Bump(robots, idx), AllAllowed, timeLeft - 1)
    decreases timeLeft, 0, 0
  {
    var after := SubtractMaterials(AddMaterials(materials, robots), bp[idx]);
    var q := BestAchievable(bp, maxRobots, after, Bump(robots, idx), AllAllowed, timeLeft - 1);
    plan := [Build(idx)] + q;
    assert plan[1..] == q;
  }

  /** Following such an order from non-negative stock never spends more
      than is held: materials and robots stay non-negative, robots only
      grow, and no robot but the geode robot passes its cap. */
  lemma {:induction false} FollowsKeepsStock(bp: Blueprint, maxRobots: Quad, materials: Quad, robots: Quad, allowed: Flags, plan: seq<Choice>)
    requires Follows(bp, maxRobots, materials, robots, allowed, plan)
    requires NonNeg(materials) && NonNeg(robots)
    ensures NonNeg(Run(bp, materials, robots, plan).0) && NonNeg(Run(bp, materials, robots, plan).1)
    ensures forall i :: 0 <= i < 4 ==> Run(bp, materials, robots, plan).1[i] >= robots[i]
    ensures forall i :: 0 <= i < 3 ==> Run(bp, materials, robots, plan).1[i] <= Max2(robots[i], maxRobots[i])
    decreases |plan|
  {
    if plan != [] {
      match plan[0]
      case Wait =>
        FollowsKeepsStock(bp, maxRobots, AddMaterials(materials, robots), robots,
                          Disallow(allowed, Buildable(bp, materials, allowed)), plan[1..]);
      case Build(i) =>
        FollowsKeepsStock(bp, maxRobots, SubtractMaterials(AddMaterials(materials, robots), bp[i]), Bump(robots, i),
                          AllAllowed, plan[1..]);
    }
  }

  lemma {:induction false} BestFromAtLeast(bp: Blueprint, maxRobots: Quad, materials: Quad, robots: Quad, buildable: Flags,
                                           timeLeft: nat, idx: nat, solution: int)
    requires timeLeft >= 2 && idx <= 4
    ensures BestFrom(bp, maxRobots, materials, robots, buildable, timeLeft, idx, solution) >= solution
    decreases 4 - idx
  {
    if idx < 4 {
      var next :=
        if buildable[idx] && UnderCap(maxRobots, robots, idx) then
          Max2(solution, Best(bp, maxRobots, SubtractMaterials(AddMaterials(materials, robots), bp[idx]),
                              Bump(robots, idx), AllAllowed, timeLeft - 1))
        else solution;
      BestFromAtLeast(bp, maxRobots, materials, robots, buildable, timeLeft, idx + 1, next);
    }
  }

  /** Waiting is always explored: the result is at least what the current
      geode robots collect, and exactly that with under two minutes left. */
  lemma {:induction false} WaitBound(bp: Blueprint, maxRobots: Quad, materials: Quad, robots: Quad, allowed: Flags, timeLeft: nat)
    ensures Best(bp, maxRobots, materials, robots, allowed, timeLeft) >= materials[3] + timeLeft * robots[3]
    ensures timeLeft <= 1 ==> Best(bp, maxRobots, materials, robots, allowed, timeLeft) == materials[3] + timeLeft * robots[3]
    decreases timeLeft
  {
    if timeLeft >= 2 {
      var after := AddMaterials(materials, robots);
      var buildable := Buildable(bp, materials, allowed);
      WaitBound(bp, maxRobots, after, robots, Disallow(allowed, buildable), timeLeft - 1);
      var waiting := Best(bp, maxRobots, after, robots, Disallow(allowed, buildable), timeLeft - 1);
      BestFromAtLeast(bp, maxRobots, materials, robots, buildable, timeLeft, 0, waiting);
      assert after[3] + (timeLeft - 1) * robots[3] == materials[3] + timeLeft * robots[3];
    }
  }

  /** No robot costs geodes (the parser writes 0 in that column). */
  predicate NoGeodeCost(bp: Blueprint)
  {
    forall i :: 0 <= i < 4 ==> bp[i][3] >= 0
  }

  /** The loop over robot kinds never ends below the value of building any
      robot it reaches that is buildable and under its cap. */
  lemma {:induction false} BestFromCovers(bp: Blueprint, maxRobots: Quad, materials: Quad, robots: Quad, buildable: Flags,
                                          timeLeft: nat, idx: nat, solution: int, j: nat)
    requires timeLeft >= 2 && idx <= j < 4
    requires buildable[j] && UnderCap(maxRobots, robots, j)
    ensures BestFrom(bp, maxRobots, materials, robots, buildable, timeLeft, idx, solution)
      >= Best(bp, maxRobots, SubtractMaterials(AddMaterials(materials, robots), bp[j]), Bump(robots, j), AllAllowed, timeLeft - 1)
    decreases 4 - idx
  {
    var next :=
      if buildable[idx] && UnderCap(maxRobots, robots, idx) then
        Max2(solution, Best(bp, maxRobots, SubtractMaterials(AddMaterials(materials, robots), bp[idx]),
                            Bump(robots, idx), AllAllowed, timeLeft - 1))
      else solution;
    if idx == j {
      BestFromAtLeast(bp, maxRobots, materials, robots, buildable, timeLeft, idx + 1, next);
    } else {
      BestFromCovers(bp, maxRobots, materials, robots, buildable, timeLeft, idx + 1, next, j);
    }
  }

  /** The last minute: building only spends, so it never beats waiting. */
  lemma LastMinuteUpper(bp: Blueprint, maxRobots: Quad, materials: Quad, robots: Quad, allowed: Flags, plan: seq<Choice>)
    requires NoGeodeCost(bp)
    requires |plan| == 1 && Follows(bp, maxRobots, materials, robots, allowed, plan)
    ensures Geodes(bp, materials, robots, plan) <= materials[3] + robots[3]
  {
    assert plan[1..] == [];
    var after := AddMaterials(materials, robots);
    match plan[0]
    case Wait =>
      assert Run(bp, materials, robots, plan) == Run(bp, after, robots, []);
    case Build(i) =>
      assert Run(bp, materials, robots, plan) == Run(bp, SubtractMaterials(after, bp[i]), Bump(robots, i), []);
  }

  /** The value of an order is that of its tail from the state after its
      first minute. */
  lemma GeodesStep(bp: Blueprint, maxRobots: Quad, materials: Quad, robots: Quad, allowed: Flags, plan: seq<Choice>)
    requires plan != [] && Follows(bp, maxRobots, materials, robots, allowed, plan)
    ensures plan[0].Wait? ==>
      && Geodes(bp, materials, robots, plan) == Geodes(bp, AddMaterials(materials, robots), robots, plan[1..])
      && Follows(bp, maxRobots, AddMaterials(materials, robots), robots, Disallow(allowed, Buildable(bp, materials, allowed)), plan[1..])
    ensures plan[0].Build? ==>
      && 0 <= plan[0].robot < 4 && Buildable(bp, materials, allowed)[plan[0].robot] && UnderCap(maxRobots, robots, plan[0].robot)
      && Geodes(bp, materials, robots, plan)
         == Geodes(bp, SubtractMaterials(AddMaterials(materials, robots), bp[plan[0].robot]), Bump(robots, plan[0].robot), plan[1..])
      && Follows(bp, maxRobots, SubtractMaterials(AddMaterials(materials, robots), bp[plan[0].robot]), Bump(robots, plan[0].robot),
                 AllAllowed, plan[1..])
  {
  }

  /** With two minutes or more, `optimize` is the loop over robot kinds
      started from the value of waiting. */
  lemma BestUnfold(bp: Blueprint, maxRobots: Quad, materials: Quad, robots: Quad, allowed: Flags, timeLeft: nat)
    requires timeLeft >= 2
    ensures Best(bp, maxRobots, materials, robots, allowed, timeLeft)
      == BestFrom(bp, maxRobots, materials, robots, Buildable(bp, materials, allowed), timeLeft, 0,
                  Best(bp, maxRobots, AddMaterials(materials, robots), robots,
                       Disallow(allowed, Buildable(bp, materials, allowed)), timeLeft - 1))
  {
  }

  /** No build order `optimize` may follow for `timeLeft` minutes opens more
      geodes than it returns. */
  lemma {:induction false} BestUpper(bp: Blueprint, maxRobots: Quad, materials: Quad, robots: Quad, allowed: Flags,
                                     timeLeft: nat, plan: seq<Choice>)
    requires NoGeodeCost(bp)
    requires |plan| == timeLeft && Follows(bp, maxRobots, materials, robots, allowed, plan)
    ensures Geodes(bp, materials, robots, plan) <= Best(bp, maxRobots, materials, robots, allowed, timeLeft)
    decreases timeLeft, 1
  {
    if timeLeft == 1 {
      LastMinuteUpper(bp, maxRobots, materials, robots, allowed, plan);
    } else if timeLeft >= 2 {
      var buildable := Buildable(bp, materials, allowed);
      var after := AddMaterials(materials, robots);
      var waiting := Best(bp, maxRobots, after, robots, Disallow(allowed, buildable), timeLeft - 1);
      BestUnfold(bp, maxRobots, materials, robots, allowed, timeLeft);
      GeodesStep(bp, maxRobots, materials, robots, allowed, plan);
      if plan[0].Wait? {
        WaitUpper(bp, maxRobots, materials, robots, allowed, timeLeft, plan);
      } else {
        BuildUpper(bp, maxRobots, materials, robots, allowed, timeLeft, plan);
      }
    }
  }

  lemma {:induction false} WaitUpper(bp: Blueprint, maxRobots: Quad, materials: Quad, robots: Quad, allowed: Flags,
                                     timeLeft: nat, plan: seq<Choice>)
    requires NoGeodeCost(bp) && timeLeft >= 2
    requires |plan| == timeLeft && plan[0].Wait?
    requires Follows(bp, maxRobots, AddMaterials(materials, robots), robots, Disallow(allowed, Buildable(bp, materials, allowed)), plan[1..])
    ensures Geodes(bp, AddMaterials(materials, robots), robots, plan[1..])
      <= BestFrom(bp, maxRobots, materials, robots, Buildable(bp, materials, allowed), timeLeft, 0,
                  Best(bp, maxRobots, AddMaterials(materials, robots), robots,
                       Disallow(allowed, Buildable(bp, materials, allowed)), timeLeft - 1))
    decreases timeLeft, 0
  {
    var buildable := Buildable(bp, materials, allowed);
    var after := AddMaterials(materials, robots);
    var waiting := Best(bp, maxRobots, after, robots, Disallow(allowed, buildable), timeLeft - 1);
    BestUpper(bp, maxRobots, after, robots, Disallow(allowed, buildable), timeLeft - 1, plan[1..]);
    BestFromAtLeast(bp, maxRobots, materials, robots, buildable, timeLeft, 0, waiting);
  }

  lemma {:induction false} BuildUpper(bp: Blueprint, maxRobots: Quad, materials: Quad, robots: Quad, allowed: Flags,
                                      timeLeft: nat, plan: seq<Choice>)
    requires NoGeodeCost(bp) && timeLeft >= 2
    requires |plan| == timeLeft && plan[0].Build? && 0 <= plan[0].robot < 4
    requires Buildable(bp, materials, allowed)[plan[0].robot] && UnderCap(maxRobots, robots, plan[0].robot)
    requires Follows(bp, maxRobots, SubtractMaterials(AddMaterials(materials, robots), bp[plan[0].robot]), Bump(robots, plan[0].robot),
                     AllAllowed, plan[1..])
    ensures Geodes(bp, SubtractMaterials(AddMaterials(materials, robots), bp[plan[0].robot]), Bump(robots, plan[0].robot), plan[1..])
      <= BestFrom(bp, maxRobots, materials, robots, Buildable(bp, materials, allowed), timeLeft, 0,
                  Best(bp, maxRobots, AddMaterials(materials, robots), robots,
                       Disallow(allowed, Buildable(bp, materials, allowed)), timeLeft - 1))
    decreases timeLeft, 0
  {
    var buildable := Buildable(bp, materials, allowed);
    var after := AddMaterials(materials, robots);
    var waiting := Best(bp, maxRobots, after, robots, Disallow(allowed, buildable), timeLeft - 1);
    var i := plan[0].robot;
    BestUpper(bp, maxRobots, SubtractMaterials(after, bp[i]), Bump(robots, i), AllAllowed, timeLeft - 1, plan[1..]);
    BestFromCovers(bp, maxRobots, materials, robots, buildable, timeLeft, 0, waiting, i);
  }

  /** So `optimize` returns the most geodes over the build orders it may
      follow. */
  lemma BestIsMax(bp: Blueprint, maxRobots: Quad, materials: Quad, robots: Quad, allowed: Flags, timeLeft: nat)
    requires NoGeodeCost(bp)
    ensures exists plan :: (|plan| == timeLeft && Follows(bp, maxRobots, materials, robots, allowed, plan)
      && Geodes(bp, materials, robots, plan) == Best(bp, maxRobots, materials, robots, allowed, timeLeft))
    ensures forall plan :: (|plan| == timeLeft && Follows(bp, maxRobots, materials, robots, allowed, plan)
      ==> Geodes(bp, materials, robots, plan) <= Best(bp, maxRobots, materials, robots, allowed, timeLeft))
  {
    var best := BestAchievable(bp, maxRobots, materials, robots, allowed, timeLeft);
    forall plan | |plan| == timeLeft && Follows(bp, maxRobots, materials, robots, allowed, plan)
      ensures Geodes(bp, materials, robots, plan) <= Best(bp, maxRobots, materials, robots, allowed, timeLeft)
    {
      BestUpper(bp, maxRobots, materials, robots, allowed, timeLeft, plan);
    }
  }

  // ----- quality levels -----

  /** `maxRobots`: for each material, the largest cost of any robot in it. */
  function MaxRobots(bp: Blueprint): (r: Quad)
    ensures forall i :: 0 <= i < 4 ==> IsMax(r[i], [bp[0][i], bp[1][i], bp[2][i], bp[3][i]])
  {
    seq(4, i requires 0 <= i < 4 => Max([bp[0][i], bp[1][i], bp[2][i], bp[3][i]]))
  }

  /** The geodes one blueprint opens from one ore robot and nothing else. */
  function Quality(bp: Blueprint, timeLeft: nat): int
  {
    Best(bp, MaxRobots(bp), NoMaterials, OneOreRobot, AllAllowed, timeLeft)
  }

  /** The start holds no geode robot, so no blueprint scores below zero,
      and its score is reached by a build order that never overspends. */
  lemma QualityMeaning(bp: Blueprint, timeLeft: nat) returns (plan: seq<Choice>)
    ensures Quality(bp, timeLeft) >= 0
    ensures |plan| == timeLeft && Follows(bp, MaxRobots(bp), NoMaterials, OneOreRobot, AllAllowed, plan)
    ensures Geodes(bp, NoMaterials, OneOreRobot, plan) == Quality(bp, timeLeft)
    ensures NonNeg(Run(bp, NoMaterials, OneOreRobot, plan).0)
  {
    WaitBound(bp, MaxRobots(bp), NoMaterials, OneOreRobot, AllAllowed, timeLeft);
    plan := BestAchievable(bp, MaxRobots(bp), NoMaterials, OneOreRobot, AllAllowed, timeLeft);
    FollowsKeepsStock(bp, MaxRobots(bp), NoMaterials, OneOreRobot, AllAllowed, plan);
  }

  /** `qualityLevel` */
  method QualityLevel(bp: Blueprint, timeLeft: nat) returns (level: int)
    ensures level == Quality(bp, timeLeft) && level >= 0
  {
    var materials: Quad := NoMaterials;
    var robots: Quad := OneOreRobot;
    var maxRobots := MaxRobots(bp);
    level := Optimize(bp, maxRobots, materials, robots, AllAllowed, timeLeft);
    var _ := QualityMeaning(bp, timeLeft);
  }

  /** Each blueprint's 24-minute level times its number. */
  function Score(bps: seq<Blueprint>): int
  {
    if bps == [] then 0 else Score(bps[..|bps| - 1]) + Quality(bps[|bps| - 1], Part1Minutes) * |bps|
  }

  lemma {:induction false} ScoreNonNeg(bps: seq<Blueprint>)
    ensures Score(bps) >= 0
  {
    if bps != [] {
      ScoreNonNeg(bps[..|bps| - 1]);
      var _ := QualityMeaning(bps[|bps| - 1], Part1Minutes);
      MulNonNeg(Quality(bps[|bps| - 1], Part1Minutes), |bps|);
    }
  }

  /** `part1` */
  method Part1(bps: seq<Blueprint>) returns (score: int)
    ensures score == Score(bps) && score >= 0
  {
    score := 0;
    for idx := 0 to |bps|
      invariant score == Score(bps[..idx])
    {
      var level := QualityLevel(bps[idx], Part1Minutes);
      assert bps[..idx + 1][..idx] == bps[..idx];
      score := score + level * (idx + 1);
    }
    assert bps[..|bps|] == bps;
    ScoreNonNeg(bps);
  }

  /** The product of the first (up to) three 32-minute levels. */
  function Product(levels: seq<int>): int
  {
    if levels == [] then 1 else Product(levels[..|levels| - 1]) * levels[|levels| - 1]
  }

  lemma {:induction false} ProductNonNeg(levels: seq<int>)
    requires forall i :: 0 <= i < |levels| ==> levels[i] >= 0
    ensures Product(levels) >= 0
  {
    if levels != [] {
      ProductNonNeg(levels[..|levels| - 1]);
      MulNonNeg(Product(levels[..|levels| - 1]), levels[|levels| - 1]);
    }
  }

  lemma MulNonNeg(a: int, b: int)
    requires a >= 0 && b >= 0
    ensures a * b >= 0
  {
  }

  /** The 32-minute levels of the first (up to) three blueprints. */
  ghost function TopLevels(bps: seq<Blueprint>): (levels: seq<int>)
    ensures |levels| == if |bps| < 3 then |bps| else 3
  {
    var n := if |bps| < 3 then |bps| else 3;
    seq(n, i requires 0 <= i < n => Quality(bps[i], Part2Minutes))
  }

  /** The level of each blueprint, in order. */
  method Levels(bps: seq<Blueprint>, minutes: nat) returns (levels: seq<int>)
    ensures |levels| == |bps|
    ensures forall i :: 0 <= i < |bps| ==> levels[i] == Quality(bps[i], minutes) && levels[i] >= 0
  {
    levels := [];
    for idx := 0 to |bps|
      invariant |levels| == idx
      invariant forall i :: 0 <= i < idx ==> levels[i] == Quality(bps[i], minutes) && levels[i] >= 0
    {
      var level := QualityLevel(bps[idx], minutes);
      levels := levels + [level];
    }
  }

  /** The reduce of `part2`, starting from the first level. */
  method Multiply(levels: seq<int>) returns (product: int)
    requires levels != []
    ensures product == Product(levels)
  {
    product := levels[0];
    assert levels[..1] == [levels[0]] && [levels[0]][..0] == [];
    for i := 1 to |levels|
      invariant product == Product(levels[..i])
    {
      assert levels[..i + 1][..i] == levels[..i];
      product := product * levels[i];
    }
    assert levels[..|levels|] == levels;
  }

  /** `part2`: the reduce has no start value when there is no blueprint,
      so the source returns `undefined` then (None here). */
  method Part2(bps: seq<Blueprint>) returns (r: Option<int>)
    ensures bps == [] <==> r == None
    ensures r.Some? ==> r.value == Product(TopLevels(bps)) && r.value >= 0
  {
    if bps == [] {
      return None;
    }
    var levels := Levels(bps[..if |bps| < 3 then |bps| else 3], Part2Minutes);
    assert levels == TopLevels(bps);
    var product := Multiply(levels);
    ProductNonNeg(levels);
    return Some(product);
  }
}
