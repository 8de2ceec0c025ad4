/** 2023 day 19: parts rated on four features pass through workflows of
    rules; the first rule whose condition holds names the next workflow, or
    "A" (accepted) or "R" (rejected). Part 1 sums the ratings of the
    accepted parts; part 2 splits ranges of ratings ("blueprints") along
    the same rules to find every accepted combination. */
module Day2023_19 {
  import opened Common

  datatype Feature = X | M | A | S

  /** A part's four ratings. */
  datatype Part = Part(x: int, m: int, a: int, s: int)

  function Get(part: Part, feature: Feature): int
  {
    match feature
    case X => part.x
    case M => part.m
    case A => part.a
    case S => part.s
  }

  /** A condition `feature < threshold` (`less`) or `feature > threshold`. */
  datatype Condition = Condition(feature: Feature, less: bool, threshold: int)

  datatype Rule = Rule(condition: Condition, result: string)

  datatype Workflow = Workflow(rules: seq<Rule>, defaultResult: string)

  type Workflows = map<string, Workflow>

  predicate Matches(condition: Condition, part: Part)
  {
    var value := Get(part, condition.feature);
    (condition.less && value < condition.threshold) || (!condition.less && value > condition.threshold)
  }

  // ---------------------------------------------------------------------------
  // isAccepted
  // ---------------------------------------------------------------------------

  /** The index of the first rule whose condition the part meets, or the
    * number of rules when there is none. */
  function FirstMatch(rules: seq<Rule>, part: Part): (i: nat)
    ensures i <= |rules|
    ensures forall j :: 0 <= j < i ==> !Matches(rules[j].condition, part)
    ensures i < |rules| ==> Matches(rules[i].condition, part)
  {
    if rules == [] then 0
    else if Matches(rules[0].condition, part) then 0
    else 1 + FirstMatch(rules[1..], part)
  }

  /** Where a workflow sends a part: the first matching rule's result, or
    * the default. */
  function Route(workflow: Workflow, part: Part): string
  {
    var i := FirstMatch(workflow.rules, part);
    if i < |workflow.rules| then workflow.rules[i].result else workflow.defaultResult
  }

  /** `isAccepted` with at most `fuel` workflows visited: the `assert`
    * fails for a workflow that does not exist, and a cycle of workflows
    * runs out of fuel. */
  function Accepts(part: Part, workflows: Workflows, next: string, fuel: nat): Result<bool>
    decreases fuel
  {
    if next == "A" then Success(true)
    else if next == "R" then Success(false)
    else if next !in workflows then Failure("no workflow " + next)
    else if fuel == 0 then Failure("out of fuel")
    else Accepts(part, workflows, Route(workflows[next], part), fuel - 1)
  }

  /** `isAccepted`: the loop over the rules, following the first that
    * matches, else the default. */
  method IsAccepted(part: Part, workflows: Workflows, next: string, fuel: nat) returns (r: Result<bool>)
    ensures r == Accepts(part, workflows, next, fuel)
    decreases fuel
  {
    if next == "A" {
      return Success(true);
    } else if next == "R" {
      return Success(false);
    }
    if next !in workflows {
      return Failure("no workflow " + next);
    }
    if fuel == 0 {
      return Failure("out of fuel");
    }
    var workflow := workflows[next];
    for i := 0 to |workflow.rules|
      invariant forall j :: 0 <= j < i ==> !Matches(workflow.rules[j].condition, part)
    {
      var rule := workflow.rules[i];
      var partValue := Get(part, rule.condition.feature);
      if (rule.condition.less && partValue < rule.condition.threshold) || (!rule.condition.less && partValue > rule.condition.threshold) {
        FirstMatchIs(workflow.rules, part, i);
        r := IsAccepted(part, workflows, rule.result, fuel - 1);
        return;
      }
    }
    FirstMatchIs(workflow.rules, part, |workflow.rules|);
    r := IsAccepted(part, workflows, workflow.defaultResult, fuel - 1);
  }

  /** The first match is the index before which nothing matches and at
    * which the rule matches (or the end). */
  lemma FirstMatchIs(rules: seq<Rule>, part: Part, i: nat)
    requires i <= |rules|
    requires forall j :: 0 <= j < i ==> !Matches(rules[j].condition, part)
    requires i < |rules| ==> Matches(rules[i].condition, part)
    ensures FirstMatch(rules, part) == i
  {
  }

  /** More fuel changes no verdict: a run that finished within `fuel`
    * workflows finishes the same way with more. */
  lemma {:induction false} AcceptsFuel(part: Part, workflows: Workflows, next: string, fuel: nat, more: nat)
    requires Accepts(part, workflows, next, fuel).Success? && fuel <= more
    ensures Accepts(part, workflows, next, more) == Accepts(part, workflows, next, fuel)
    decreases fuel
  {
    if next != "A" && next != "R" {
      AcceptsFuel(part, workflows, Route(workflows[next], part), fuel - 1, more - 1);
    }
  }

  /** The ratings of a part summed. */
  function Rating(part: Part): int
  {
    part.x + part.m + part.a + part.s
  }

  /** The accepted parts, in order; a failure when some part's run fails. */
  function AcceptedParts(parts: seq<Part>, workflows: Workflows, fuel: nat): Result<seq<Part>>
  {
    if parts == [] then Success([])
    else
      var part := parts[|parts| - 1];
      match AcceptedParts(parts[..|parts| - 1], workflows, fuel)
      case Failure(message) => Failure(message)
      case Success(accepted) =>
        match Accepts(part, workflows, "in", fuel)
        case Failure(message) => Failure(message)
        case Success(ok) => Success(accepted + if ok then [part] else [])
  }

  /** The accepted parts are those parts that the run from "in" accepts,
    * in their order. */
  lemma {:induction false} AcceptedPartsMeaning(parts: seq<Part>, workflows: Workflows, fuel: nat)
    requires AcceptedParts(parts, workflows, fuel).Success?
    ensures forall k :: 0 <= k < |parts| ==> Accepts(parts[k], workflows, "in", fuel).Success?
    ensures forall p :: p in AcceptedParts(parts, workflows, fuel).value <==>
      p in parts && Accepts(p, workflows, "in", fuel) == Success(true)
  {
    if parts != [] {
      AcceptedPartsMeaning(parts[..|parts| - 1], workflows, fuel);
      assert parts == parts[..|parts| - 1] + [parts[|parts| - 1]];
    }
  }

  /** Part 1: the ratings of the accepted parts, summed. */
  function Part1(parts: seq<Part>, workflows: Workflows, fuel: nat): Result<int>
  {
    match AcceptedParts(parts, workflows, fuel)
    case Failure(message) => Failure(message)
    case Success(accepted) => Success(Sum(seq(|accepted|, k requires 0 <= k < |accepted| => Rating(accepted[k]))))
  }

  // ---------------------------------------------------------------------------
  // Blueprints: ranges of ratings
  // ---------------------------------------------------------------------------

  /** An inclusive range of ratings. */
  type Range = (int, int)

  datatype Blueprint = Blueprint(x: Range, m: Range, a: Range, s: Range)

  function GetRange(blueprint: Blueprint, feature: Feature): Range
  {
    match feature
    case X => blueprint.x
    case M => blueprint.m
    case A => blueprint.a
    case S => blueprint.s
  }

  function SetRange(blueprint: Blueprint, feature: Feature, range: Range): (r: Blueprint)
    ensures GetRange(r, feature) == range
    ensures forall f :: f != feature ==> GetRange(r, f) == GetRange(blueprint, f)
  {
    match feature
    case X => blueprint.(x := range)
    case M => blueprint.(m := range)
    case A => blueprint.(a := range)
    case S => blueprint.(s := range)
  }

  predicate InRange(range: Range, value: int)
  {
    range.0 <= value <= range.1
  }

  /** The parts a blueprint stands for: every rating within its range. */
  predicate Contains(blueprint: Blueprint, part: Part)
  {
    InRange(blueprint.x, part.x) && InRange(blueprint.m, part.m) && InRange(blueprint.a, part.a) && InRange(blueprint.s, part.s)
  }

  /** Every range is non-empty. */
  predicate WellFormed(blueprint: Blueprint)
  {
    blueprint.x.0 <= blueprint.x.1 && blueprint.m.0 <= blueprint.m.1 && blueprint.a.0 <= blueprint.a.1 && blueprint.s.0 <= blueprint.s.1
  }

  lemma ContainsFeature(blueprint: Blueprint, part: Part)
    ensures Contains(blueprint, part) <==> forall f :: InRange(GetRange(blueprint, f), Get(part, f))
  {
    if !Contains(blueprint, part) {
      if !InRange(blueprint.x, part.x) {
        assert !InRange(GetRange(blueprint, X), Get(part, X));
      } else if !InRange(blueprint.m, part.m) {
        assert !InRange(GetRange(blueprint, M), Get(part, M));
      } else if !InRange(blueprint.a, part.a) {
        assert !InRange(GetRange(blueprint, A), Get(part, A));
      } else {
        assert !InRange(GetRange(blueprint, S), Get(part, S));
      }
    }
  }

  /** `addCondition`: the blueprint narrowed to the parts meeting the
    * condition; `undefined` (None) when the range would be empty. */
  function AddCondition(blueprint: Blueprint, condition: Condition): Option<Blueprint>
  {
    var currentRange := GetRange(blueprint, condition.feature);
    if condition.less then
      if currentRange.0 >= condition.threshold then None
      else if currentRange.1 >= condition.threshold then
        Some(SetRange(blueprint, condition.feature, (currentRange.0, condition.threshold - 1)))
      else Some(blueprint)
    else
      if currentRange.1 <= condition.threshold then None
      else if currentRange.0 <= condition.threshold then
        Some(SetRange(blueprint, condition.feature, (condition.threshold + 1, currentRange.1)))
      else Some(blueprint)
  }

  /** Narrowing keeps exactly the parts meeting the condition: none are
    * left when it gives `undefined`; only the condition's feature changes,
    * to a sub-range, and a well-formed blueprint stays well-formed. */
  lemma AddConditionMeaning(blueprint: Blueprint, condition: Condition, part: Part)
    ensures AddCondition(blueprint, condition).None? ==> !(Contains(blueprint, part) && Matches(condition, part))
    ensures AddCondition(blueprint, condition).Some? ==>
      (Contains(AddCondition(blueprint, condition).value, part) <==> Contains(blueprint, part) && Matches(condition, part))
  {
    ContainsFeature(blueprint, part);
    match AddCondition(blueprint, condition)
    case None =>
    case Some(b) =>
      ContainsFeature(b, part);
  }

  /** Narrowing changes only the condition's feature, to a non-empty
    * sub-range of a non-empty one. */
  lemma AddConditionShape(blueprint: Blueprint, condition: Condition)
    requires AddCondition(blueprint, condition).Some?
    ensures var b := AddCondition(blueprint, condition).value;
      && (forall f :: f != condition.feature ==> GetRange(b, f) == GetRange(blueprint, f))
      && GetRange(blueprint, condition.feature).0 <= GetRange(b, condition.feature).0
      && GetRange(b, condition.feature).1 <= GetRange(blueprint, condition.feature).1
      && (WellFormed(blueprint) ==> WellFormed(b))
  {
    var b := AddCondition(blueprint, condition).value;
    if WellFormed(blueprint) {
      assert GetRange(b, condition.feature).0 <= GetRange(b, condition.feature).1;
      match condition.feature
      case X =>
      case M =>
      case A =>
      case S =>
    }
  }

  /** The conditions applied in turn, stopping at the first `undefined`. */
  function AddAll(blueprint: Blueprint, conditions: seq<Condition>): Option<Blueprint>
    decreases |conditions|
  {
    if conditions == [] then Some(blueprint)
    else
      match AddCondition(blueprint, conditions[0])
      case None => None
      case Some(b) => AddAll(b, conditions[1..])
  }

  /** `addConditions`: the loop applying the conditions in turn. */
  method AddConditions(blueprint: Blueprint, conditions: seq<Condition>) returns (r: Option<Blueprint>)
    ensures r == AddAll(blueprint, conditions)
  {
    var current := blueprint;
    for i := 0 to |conditions|
      invariant AddAll(blueprint, conditions) == AddAll(current, conditions[i..])
    {
      assert conditions[i..][1..] == conditions[i + 1..];
      var updatedBlueprint := AddCondition(current, conditions[i]);
      if updatedBlueprint.None? {
        return None;
      }
      current := updatedBlueprint.value;
    }
    return Some(current);
  }

  predicate MatchesAll(conditions: seq<Condition>, part: Part)
  {
    forall k :: 0 <= k < |conditions| ==> Matches(conditions[k], part)
  }

  /** Applying conditions keeps exactly the parts meeting all of them. */
  lemma {:induction false} AddAllMeaning(blueprint: Blueprint, conditions: seq<Condition>, part: Part)
    ensures AddAll(blueprint, conditions).None? ==> !(Contains(blueprint, part) && MatchesAll(conditions, part))
    ensures AddAll(blueprint, conditions).Some? ==>
      (Contains(AddAll(blueprint, conditions).value, part) <==> Contains(blueprint, part) && MatchesAll(conditions, part))
    decreases |conditions|
  {
    if conditions != [] {
      AddConditionMeaning(blueprint, conditions[0], part);
      var rest := conditions[1..];
      assert MatchesAll(conditions, part) <==> Matches(conditions[0], part) && MatchesAll(rest, part) by {
        if Matches(conditions[0], part) && MatchesAll(rest, part) {
          forall k | 0 <= k < |conditions|
            ensures Matches(conditions[k], part)
          {
            if k > 0 {
              assert conditions[k] == rest[k - 1];
            }
          }
        }
      }
      match AddCondition(blueprint, conditions[0])
      case None =>
      case Some(b) =>
        AddAllMeaning(b, rest, part);
    }
  }

  /** The blueprints that survive the conditions, narrowed, in order. */
  function AddAllToAll(blueprints: seq<Blueprint>, conditions: seq<Condition>): seq<Blueprint>
  {
    if blueprints == [] then []
    else
      AddAllToAll(blueprints[..|blueprints| - 1], conditions) +
        match AddAll(blueprints[|blueprints| - 1], conditions)
        case None => []
        case Some(b) => [b]
  }

  /** `addConditionsToAll`: the loop over the blueprints. */
  method AddConditionsToAll(blueprints: seq<Blueprint>, conditions: seq<Condition>) returns (adjusted: seq<Blueprint>)
    ensures adjusted == AddAllToAll(blueprints, conditions)
  {
    adjusted := [];
    for i := 0 to |blueprints|
      invariant adjusted == AddAllToAll(blueprints[..i], conditions)
    {
      var adjustedBlueprint := AddConditions(blueprints[i], conditions);
      assert blueprints[..i + 1][..i] == blueprints[..i];
      if adjustedBlueprint.Some? {
        adjusted := adjusted + [adjustedBlueprint.value];
      }
    }
    assert blueprints[..|blueprints|] == blueprints;
  }

  /** Some blueprint of the list stands for the part. */
  predicate Covered(blueprints: seq<Blueprint>, part: Part)
  {
    exists i :: 0 <= i < |blueprints| && Contains(blueprints[i], part)
  }

  lemma {:induction false} AddAllToAllMeaning(blueprints: seq<Blueprint>, conditions: seq<Condition>, part: Part)
    ensures Covered(AddAllToAll(blueprints, conditions), part) <==> Covered(blueprints, part) && MatchesAll(conditions, part)
  {
    if blueprints != [] {
      var n := |blueprints| - 1;
      var init := blueprints[..n];
      AddAllToAllMeaning(init, conditions, part);
      AddAllMeaning(blueprints[n], conditions, part);
      var front := AddAllToAll(init, conditions);
      var all := AddAllToAll(blueprints, conditions);
      if Covered(all, part) {
        var i :| 0 <= i < |all| && Contains(all[i], part);
        if i < |front| {
          assert all[i] == front[i];
          var j :| 0 <= j < |init| && Contains(init[j], part);
          assert blueprints[j] == init[j];
        }
      }
      if Covered(blueprints, part) && MatchesAll(conditions, part) {
        var j :| 0 <= j < |blueprints| && Contains(blueprints[j], part);
        if j < n {
          assert init[j] == blueprints[j];
          var i :| 0 <= i < |front| && Contains(front[i], part);
          assert all[i] == front[i];
        } else {
          assert all[|front|] == AddAll(blueprints[n], conditions).value;
        }
      }
    }
  }

  // ---------------------------------------------------------------------------
  // computeBlueprints
  // ---------------------------------------------------------------------------

  /** The condition that holds exactly when `condition` fails: "<t" becomes
    * ">t-1" and ">t" becomes "<t+1". */
  function Negate(condition: Condition): (r: Condition)
    ensures forall part :: Matches(r, part) <==> !Matches(condition, part)
  {
    if condition.less then Condition(condition.feature, false, condition.threshold - 1)
    else Condition(condition.feature, true, condition.threshold + 1)
  }

  /** The `addedConditions` after the first `k` rules. */
  function Negations(rules: seq<Rule>, k: nat): (r: seq<Condition>)
    requires k <= |rules|
    ensures |r| == k && forall j :: 0 <= j < k ==> r[j] == Negate(rules[j].condition)
  {
    if k == 0 then [] else Negations(rules, k - 1) + [Negate(rules[k - 1].condition)]
  }

  /** Two results of blueprint lists, concatenated; the first failure
    * wins. */
  function Concat(first: Result<seq<Blueprint>>, second: Result<seq<Blueprint>>): Result<seq<Blueprint>>
  {
    if first.Failure? then first
    else if second.Failure? then second
    else Success(first.value + second.value)
  }

  /** `computeBlueprints` with at most `fuel` workflows deep: the
    * blueprints accepted from `next` on; the `assert` fails for a workflow
    * that does not exist, and a cycle of workflows runs out of fuel. */
  function Compute(existing: seq<Blueprint>, workflows: Workflows, next: string, fuel: nat): Result<seq<Blueprint>>
    decreases fuel, 1
  {
    if next == "A" then Success(existing)
    else if next == "R" then Success([])
    else if next !in workflows then Failure("no workflow " + next)
    else if fuel == 0 then Failure("out of fuel")
    else
      var workflow := workflows[next];
      Concat(ComputeRules(existing, workflows, workflow.rules, |workflow.rules|, fuel - 1),
             Compute(AddAllToAll(existing, Negations(workflow.rules, |workflow.rules|)), workflows, workflow.defaultResult, fuel - 1))
  }

  /** The blueprints accepted through the first `k` rules: rule `j` takes
    * the blueprints failing every earlier rule and meeting its own. */
  function ComputeRules(existing: seq<Blueprint>, workflows: Workflows, rules: seq<Rule>, k: nat, fuel: nat): Result<seq<Blueprint>>
    requires k <= |rules|
    decreases fuel + 1, 0, k
  {
    if k == 0 then Success([])
    else
      var conditions := Negations(rules, k - 1) + [rules[k - 1].condition];
      Concat(ComputeRules(existing, workflows, rules, k - 1, fuel),
             Compute(AddAllToAll(existing, conditions), workflows, rules[k - 1].result, fuel))
  }

  /** `computeBlueprints`: the loop over the rules, each carrying the
    * negated conditions of those before it, then the default. */
  method ComputeBlueprints(existing: seq<Blueprint>, workflows: Workflows, next: string, fuel: nat) returns (r: Result<seq<Blueprint>>)
    ensures r == Compute(existing, workflows, next, fuel)
    decreases fuel
  {
    if next == "A" {
      return Success(existing);
    } else if next == "R" {
      return Success([]);
    }
    if next !in workflows {
      return Failure("no workflow " + next);
    }
    if fuel == 0 {
      return Failure("out of fuel");
    }
    var workflow := workflows[next];
    var finalBlueprints: seq<Blueprint> := [];
    var addedConditions: seq<Condition> := [];
    for i := 0 to |workflow.rules|
      invariant addedConditions == Negations(workflow.rules, i)
      invariant ComputeRules(existing, workflows, workflow.rules, i, fuel - 1) == Success(finalBlueprints)
    {
      var rule := workflow.rules[i];
      var adjustedBlueprints := AddConditionsToAll(existing, addedConditions + [rule.condition]);
      var computed := ComputeBlueprints(adjustedBlueprints, workflows, rule.result, fuel - 1);
      if computed.Failure? {
        RulesFailureStays(existing, workflows, workflow.rules, i + 1, |workflow.rules|, fuel - 1);
        return Failure(computed.message);
      }
      finalBlueprints := finalBlueprints + computed.value;
      if rule.condition.less {
        addedConditions := addedConditions + [Condition(rule.condition.feature, false, rule.condition.threshold - 1)];
      } else {
        addedConditions := addedConditions + [Condition(rule.condition.feature, true, rule.condition.threshold + 1)];
      }
    }
    var defaultedBlueprints := AddConditionsToAll(existing, addedConditions);
    var computed := ComputeBlueprints(defaultedBlueprints, workflows, workflow.defaultResult, fuel - 1);
    if computed.Failure? {
      return Failure(computed.message);
    }
    return Success(finalBlueprints + computed.value);
  }

  /** Once a rule's branch fails, the rules' result stays that failure. */
  lemma {:induction false} RulesFailureStays(existing: seq<Blueprint>, workflows: Workflows, rules: seq<Rule>, i: nat, k: nat, fuel: nat)
    requires i <= k <= |rules| && ComputeRules(existing, workflows, rules, i, fuel).Failure?
    ensures ComputeRules(existing, workflows, rules, k, fuel) == ComputeRules(existing, workflows, rules, i, fuel)
    decreases k
  {
    if i < k {
      RulesFailureStays(existing, workflows, rules, i, k - 1, fuel);
    }
  }

  lemma CoveredConcat(first: seq<Blueprint>, second: seq<Blueprint>, part: Part)
    ensures Covered(first + second, part) <==> Covered(first, part) || Covered(second, part)
  {
    var all := first + second;
    if Covered(all, part) {
      var i :| 0 <= i < |all| && Contains(all[i], part);
      if i >= |first| {
        assert second[i - |first|] == all[i];
      }
    }
    if Covered(second, part) {
      var i :| 0 <= i < |second| && Contains(second[i], part);
      assert all[|first| + i] == second[i];
    }
    if Covered(first, part) {
      var i :| 0 <= i < |first| && Contains(first[i], part);
      assert all[i] == first[i];
    }
  }

  /** The conditions of rule `i`'s branch hold exactly when rule `i` is the
    * first that matches. */
  lemma BranchConditions(rules: seq<Rule>, i: nat, part: Part)
    requires i < |rules|
    ensures MatchesAll(Negations(rules, i) + [rules[i].condition], part) <==> FirstMatch(rules, part) == i
  {
    var conditions := Negations(rules, i) + [rules[i].condition];
    if MatchesAll(conditions, part) {
      forall j | 0 <= j < i
        ensures !Matches(rules[j].condition, part)
      {
        assert conditions[j] == Negate(rules[j].condition);
      }
      assert conditions[i] == rules[i].condition;
      FirstMatchIs(rules, part, i);
    }
    if FirstMatch(rules, part) == i {
      forall k | 0 <= k < |conditions|
        ensures Matches(conditions[k], part)
      {
        if k < i {
          assert conditions[k] == Negate(rules[k].condition);
        }
      }
    }
  }

  /** The default's conditions hold exactly when no rule matches. */
  lemma DefaultConditions(rules: seq<Rule>, part: Part)
    ensures MatchesAll(Negations(rules, |rules|), part) <==> FirstMatch(rules, part) == |rules|
  {
    var conditions := Negations(rules, |rules|);
    if MatchesAll(conditions, part) {
      forall j | 0 <= j < |rules|
        ensures !Matches(rules[j].condition, part)
      {
        assert conditions[j] == Negate(rules[j].condition);
      }
      FirstMatchIs(rules, part, |rules|);
    }
  }

  /** The rules' blueprints stand for the parts of `existing` whose first
    * matching rule is among the first `k` and leads to acceptance. */
  lemma {:induction false} ComputeRulesMeaning(existing: seq<Blueprint>, workflows: Workflows, rules: seq<Rule>, k: nat, fuel: nat, part: Part)
    requires k <= |rules| && ComputeRules(existing, workflows, rules, k, fuel).Success?
    ensures var i := FirstMatch(rules, part);
      Covered(ComputeRules(existing, workflows, rules, k, fuel).value, part) <==>
        Covered(existing, part) && i < k && Accepts(part, workflows, rules[i].result, fuel) == Success(true)
    decreases fuel + 1, 0, k
  {
    if k > 0 {
      var conditions := Negations(rules, k - 1) + [rules[k - 1].condition];
      var adjusted := AddAllToAll(existing, conditions);
      ComputeRulesMeaning(existing, workflows, rules, k - 1, fuel, part);
      ComputeMeaning(adjusted, workflows, rules[k - 1].result, fuel, part);
      AddAllToAllMeaning(existing, conditions, part);
      BranchConditions(rules, k - 1, part);
      CoveredConcat(ComputeRules(existing, workflows, rules, k - 1, fuel).value,
                    Compute(adjusted, workflows, rules[k - 1].result, fuel).value, part);
    }
  }

  /** The blueprints computed from `next` stand for exactly the parts of
    * `existing` that `isAccepted` accepts from `next`: part 2 splits the
    * ranges along the very decisions part 1 takes. */
  lemma {:induction false} ComputeMeaning(existing: seq<Blueprint>, workflows: Workflows, next: string, fuel: nat, part: Part)
    requires Compute(existing, workflows, next, fuel).Success?
    ensures Covered(Compute(existing, workflows, next, fuel).value, part) <==>
      Covered(existing, part) && Accepts(part, workflows, next, fuel) == Success(true)
    decreases fuel, 1
  {
    if next != "A" && next != "R" {
      var workflow := workflows[next];
      var rules := workflow.rules;
      var defaulted := AddAllToAll(existing, Negations(rules, |rules|));
      ComputeRulesMeaning(existing, workflows, rules, |rules|, fuel - 1, part);
      ComputeMeaning(defaulted, workflows, workflow.defaultResult, fuel - 1, part);
      AddAllToAllMeaning(existing, Negations(rules, |rules|), part);
      DefaultConditions(rules, part);
      CoveredConcat(ComputeRules(existing, workflows, rules, |rules|, fuel - 1).value,
                    Compute(defaulted, workflows, workflow.defaultResult, fuel - 1).value, part);
    }
  }

  /** `computeBlueprints` for "A" returns its input and for "R" nothing. */
  lemma ComputeTerminal(existing: seq<Blueprint>, workflows: Workflows, fuel: nat)
    ensures Compute(existing, workflows, "A", fuel) == Success(existing)
    ensures Compute(existing, workflows, "R", fuel) == Success([])
  {
  }

  // ---------------------------------------------------------------------------
  // Part 2
  // ---------------------------------------------------------------------------

  /** Every rating from 1 to 4000. */
  const StartBlueprint := Blueprint((1, 4000), (1, 4000), (1, 4000), (1, 4000))

  /** The number of rating combinations a blueprint stands for. */
  function Volume(blueprint: Blueprint): int
  {
    (blueprint.x.1 - blueprint.x.0 + 1) * (blueprint.m.1 - blueprint.m.0 + 1)
      * (blueprint.a.1 - blueprint.a.0 + 1) * (blueprint.s.1 - blueprint.s.0 + 1)
  }

  /** The loop multiplying the four range widths. */
  method BlueprintValue(blueprint: Blueprint) returns (value: int)
    ensures value == Volume(blueprint)
  {
    var ranges := [blueprint.x, blueprint.m, blueprint.a, blueprint.s];
    value := 1;
    for k := 0 to 4
      invariant value == if k == 0 then 1 else if k == 1 then ranges[0].1 - ranges[0].0 + 1
        else if k == 2 then (ranges[0].1 - ranges[0].0 + 1) * (ranges[1].1 - ranges[1].0 + 1)
        else if k == 3 then (ranges[0].1 - ranges[0].0 + 1) * (ranges[1].1 - ranges[1].0 + 1) * (ranges[2].1 - ranges[2].0 + 1)
        else Volume(blueprint)
    {
      value := value * (ranges[k].1 - ranges[k].0 + 1);
    }
  }

  /** A non-empty blueprint stands for at least one combination. */
  lemma VolumePositive(blueprint: Blueprint)
    requires WellFormed(blueprint)
    ensures Volume(blueprint) >= 1
  {
    var w1, w2, w3, w4 := blueprint.x.1 - blueprint.x.0 + 1, blueprint.m.1 - blueprint.m.0 + 1,
                          blueprint.a.1 - blueprint.a.0 + 1, blueprint.s.1 - blueprint.s.0 + 1;
    assert w1 * w2 >= 1 by { MulNonNeg(w1 - 1, w2 - 1); }
    assert w1 * w2 * w3 >= 1 by { MulNonNeg(w1 * w2 - 1, w3 - 1); }
    assert w1 * w2 * w3 * w4 >= 1 by { MulNonNeg(w1 * w2 * w3 - 1, w4 - 1); }
  }

  /** Part 2: the blueprints accepted from "in", starting from every
    * rating from 1 to 4000, their combinations summed. */
  method Part2(workflows: Workflows, fuel: nat) returns (r: Result<int>)
    ensures r.Failure? <==> Compute([StartBlueprint], workflows, "in", fuel).Failure?
    ensures r.Success? ==> var blueprints := Compute([StartBlueprint], workflows, "in", fuel).value;
      r.value == Sum(seq(|blueprints|, k requires 0 <= k < |blueprints| => Volume(blueprints[k])))
  {
    var computed := ComputeBlueprints([StartBlueprint], workflows, "in", fuel);
    if computed.Failure? {
      return Failure(computed.message);
    }
    var blueprints := computed.value;
    var values: seq<int> := [];
    for k := 0 to |blueprints|
      invariant values == seq(k, j requires 0 <= j < k => Volume(blueprints[j]))
    {
      var value := BlueprintValue(blueprints[k]);
      values := values + [value];
    }
    return Success(Sum(values));
  }

  /** A part is covered by the part 2 blueprints exactly when its ratings
    * are all from 1 to 4000 and part 1's run accepts it. */
  lemma Part2Covers(workflows: Workflows, fuel: nat, part: Part)
    requires Compute([StartBlueprint], workflows, "in", fuel).Success?
    ensures Covered(Compute([StartBlueprint], workflows, "in", fuel).value, part) <==>
      Contains(StartBlueprint, part) && Accepts(part, workflows, "in", fuel) == Success(true)
  {
    ComputeMeaning([StartBlueprint], workflows, "in", fuel, part);
    if Contains(StartBlueprint, part) {
      assert [StartBlueprint][0] == StartBlueprint;
    }
  }
}
