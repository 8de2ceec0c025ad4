/** 2022 day 11: monkeys throwing items. Each monkey inspects its items in
    order: the worry level goes through the monkey's operation and then
    the relaxation, and the item is thrown to one of two monkeys depending
    on whether the result is divisible by the monkey's divisor. */
module Day2022_11 {
  import opened Common

  datatype Operand = Old | Const(n: nat)

  /** `new = LEFT (+|*) RIGHT`, each side "old" or a number. */
  datatype Operation = Operation(left: Operand, plus: bool, right: Operand)

  function OperandValue(o: Operand, current: nat): nat
  {
    match o
    case Old => current
    case Const(n) => n
  }

  function ApplyOperation(op: Operation, current: nat): (r: nat)
    ensures op.plus ==> r == OperandValue(op.left, current) + OperandValue(op.right, current)
    ensures !op.plus ==> r == OperandValue(op.left, current) * OperandValue(op.right, current)
  {
    var left := OperandValue(op.left, current);
    var right := OperandValue(op.right, current);
    if op.plus then left + right else left * right
  }

  /** The relaxation after an inspection: `Math.floor(old / 3)` in part 1,
      `old % lcm` in part 2. */
  datatype Relax = DivideByThree | Modulo(m: nat)

  predicate ValidRelax(relax: Relax)
  {
    relax.Modulo? ==> relax.m > 0
  }

  function RelaxWorry(relax: Relax, worry: nat): nat
    requires ValidRelax(relax)
  {
    match relax
    case DivideByThree => worry / 3
    case Modulo(m) => worry % m
  }

  /** A monkey as a value. */
  datatype MonkeyValue = MonkeyValue(
    items: seq<nat>, operation: Operation, divisor: nat,
    successTarget: nat, failureTarget: nat, inspections: nat)

  datatype ItemThrow = ItemThrow(item: nat, monkey: nat)

  /** Divisibility of the relaxed worry; a zero divisor gives NaN in the
      source, which is never `=== 0`. */
  predicate Passes(divisor: nat, worry: nat)
  {
    divisor != 0 && worry % divisor == 0
  }

  /** Where one item goes, with its relaxed worry level. */
  function ThrowOf(m: MonkeyValue, item: nat, relax: Relax): (t: ItemThrow)
    requires ValidRelax(relax)
    ensures t.item == RelaxWorry(relax, ApplyOperation(m.operation, item))
    ensures t.monkey == if Passes(m.divisor, t.item) then m.successTarget else m.failureTarget
  {
    var relaxedWorry := RelaxWorry(relax, ApplyOperation(m.operation, item));
    ItemThrow(relaxedWorry, if Passes(m.divisor, relaxedWorry) then m.successTarget else m.failureTarget)
  }

  function Throws(m: MonkeyValue, relax: Relax): (r: seq<ItemThrow>)
    requires ValidRelax(relax)
    ensures |r| == |m.items|
  {
    seq(|m.items|, i requires 0 <= i < |m.items| => ThrowOf(m, m.items[i], relax))
  }

  /** The monkey after `processItems`: no items, one more inspection per
      item it held. */
  function Processed(m: MonkeyValue): MonkeyValue
  {
    m.(items := [], inspections := m.inspections + |m.items|)
  }

  /** Push each thrown item onto its target, in order; a target that is
      not a monkey makes the source throw. */
  function Deliver(ms: seq<MonkeyValue>, throws: seq<ItemThrow>): (r: Result<seq<MonkeyValue>>)
    ensures r.Success? ==> |r.value| == |ms|
    ensures r.Success? <==> forall k :: 0 <= k < |throws| ==> throws[k].monkey < |ms|
    decreases |throws|
  {
    if throws == [] then Success(ms)
    else
      var t := throws[0];
      if t.monkey >= |ms| then Failure("Cannot read properties of undefined")
      else
        var r := Deliver(ms[t.monkey := ms[t.monkey].(items := ms[t.monkey].items + [t.item])], throws[1..]);
        assert forall k :: 1 <= k < |throws| ==> throws[k] == throws[1..][k - 1];
        r
  }

  /** A round from monkey `i` on. */
  function RoundFrom(ms: seq<MonkeyValue>, i: nat, relax: Relax): (r: Result<seq<MonkeyValue>>)
    requires i <= |ms| && ValidRelax(relax)
    ensures r.Success? ==> |r.value| == |ms|
    decreases |ms| - i
  {
    if i == |ms| then Success(ms)
    else
      match Deliver(ms[i := Processed(ms[i])], Throws(ms[i], relax))
      case Failure(e) => Failure(e)
      case Success(next) => RoundFrom(next, i + 1, relax)
  }

  /** The total number of items held. */
  function TotalItems(ms: seq<MonkeyValue>): nat
  {
    if ms == [] then 0 else |ms[0].items| + TotalItems(ms[1..])
  }

  lemma {:induction false} TotalItemsUpdate(ms: seq<MonkeyValue>, i: nat, m: MonkeyValue)
    requires i < |ms|
    ensures TotalItems(ms[i := m]) + |ms[i].items| == TotalItems(ms) + |m.items|
  {
    if i > 0 {
      TotalItemsUpdate(ms[1..], i - 1, m);
      assert ms[i := m][1..] == ms[1..][i - 1 := m];
    }
  }

  /** Delivering adds each thrown item to exactly one monkey. */
  lemma {:induction false} DeliverAddsItems(ms: seq<MonkeyValue>, throws: seq<ItemThrow>)
    requires Deliver(ms, throws).Success?
    ensures TotalItems(Deliver(ms, throws).value) == TotalItems(ms) + |throws|
    decreases |throws|
  {
    if throws != [] {
      var t := throws[0];
      var ms' := ms[t.monkey := ms[t.monkey].(items := ms[t.monkey].items + [t.item])];
      TotalItemsUpdate(ms, t.monkey, ms'[t.monkey]);
      DeliverAddsItems(ms', throws[1..]);
    }
  }

  /** A round that completes keeps the number of items. */
  lemma {:induction false} RoundConservesItems(ms: seq<MonkeyValue>, i: nat, relax: Relax)
    requires i <= |ms| && ValidRelax(relax) && RoundFrom(ms, i, relax).Success?
    ensures TotalItems(RoundFrom(ms, i, relax).value) == TotalItems(ms)
    decreases |ms| - i
  {
    if i < |ms| {
      var emptied := ms[i := Processed(ms[i])];
      TotalItemsUpdate(ms, i, Processed(ms[i]));
      DeliverAddsItems(emptied, Throws(ms[i], relax));
      RoundConservesItems(Deliver(emptied, Throws(ms[i], relax)).value, i + 1, relax);
    }
  }

  /** Euclidean division by `d` is unique. */
  lemma DivModUnique(x: int, q: int, r: int, d: int)
    requires d > 0 && 0 <= r < d && x == q * d + r
    ensures x / d == q && x % d == r
  {
    var q', r' := x / d, x % d;
    assert x == q' * d + r';
    assert (q - q') * d == q * d - q' * d;
    if q > q' {
      MulAtLeastOne(q - q', d);
    } else if q < q' {
      MulAtLeastOne(q' - q, d);
    }
  }

  lemma MulAtLeastOne(a: int, d: int)
    requires a >= 1 && d > 0
    ensures a * d >= d
    decreases a
  {
    if a > 1 {
      MulAtLeastOne(a - 1, d);
      assert a * d == (a - 1) * d + d;
    }
  }

  /** Relaxing modulo a multiple of a divisor keeps that divisor's test. */
  lemma ModuloKeepsTest(worry: nat, d: nat, k: nat)
    requires d > 0 && k > 0
    ensures Passes(d, worry % (d * k)) <==> Passes(d, worry)
  {
    var m := d * k;
    var q, rem := worry / m, worry % m;
    var q2, r2 := rem / d, rem % d;
    assert worry == (q * k + q2) * d + r2 by {
      assert worry == q * m + rem;
      assert q * m == (q * k) * d;
      assert rem == q2 * d + r2;
    }
    DivModUnique(worry, q * k + q2, r2, d);
  }

  /** `getLCM`: the product of the divisors, none for no monkeys. */
  function Product(ds: seq<nat>): nat
  {
    if ds == [] then 1 else ds[0] * Product(ds[1..])
  }

  function GetLcm(divisors: seq<nat>): (r: Option<nat>)
    ensures r.Some? <==> divisors != []
  {
    if divisors == [] then None else Some(divisors[0] * Product(divisors[1..]))
  }

  /** Every divisor divides the product: it is the divisor times the
      product of the others. */
  lemma {:induction false} DivisorDividesProduct(ds: seq<nat>, i: nat)
    requires i < |ds|
    ensures exists k: nat :: Product(ds) == ds[i] * k
    ensures (forall j :: 0 <= j < |ds| ==> ds[j] > 0) ==> Product(ds) > 0
  {
    if i == 0 {
      assert Product(ds) == ds[0] * Product(ds[1..]);
    } else {
      DivisorDividesProduct(ds[1..], i - 1);
      var k: nat :| Product(ds[1..]) == ds[1..][i - 1] * k;
      assert Product(ds) == ds[i] * (ds[0] * k);
    }
    if forall j :: 0 <= j < |ds| ==> ds[j] > 0 {
      ProductPositive(ds);
    }
  }

  lemma {:induction false} ProductPositive(ds: seq<nat>)
    requires forall j :: 0 <= j < |ds| ==> ds[j] > 0
    ensures Product(ds) > 0
  {
    if ds != [] {
      ProductPositive(ds[1..]);
    }
  }

  /** Part 2's relaxation changes no monkey's decision. */
  lemma LcmKeepsEveryTest(divisors: seq<nat>, i: nat, worry: nat)
    requires i < |divisors| && forall j :: 0 <= j < |divisors| ==> divisors[j] > 0
    ensures GetLcm(divisors).Some? && GetLcm(divisors).value > 0
    ensures Passes(divisors[i], worry % GetLcm(divisors).value) <==> Passes(divisors[i], worry)
  {
    DivisorDividesProduct(divisors, i);
    assert GetLcm(divisors).value == Product(divisors);
    var k: nat :| Product(divisors) == divisors[i] * k;
    ModuloKeepsTest(worry, divisors[i], k);
  }

  /** `monkeyBusiness`: the product of the two largest inspection counts;
      fewer than two monkeys make the source read `undefined`. */
  function MonkeyBusiness(counts: seq<int>): (r: Result<int>)
    ensures r.Success? <==> |counts| >= 2
    ensures r.Success? ==> exists i, j ::
      && 0 <= i < |counts| && 0 <= j < |counts| && i != j
      && r.value == counts[i] * counts[j]
      && forall k :: 0 <= k < |counts| && k != i && k != j ==> counts[k] <= counts[j] <= counts[i]
  {
    if |counts| < 2 then Failure("Cannot read properties of undefined")
    else
      var sorted := Sort(counts);
      var n := |sorted|;
      SortedTopTwo(counts, sorted);
      Success(sorted[n - 1] * sorted[n - 2])
  }

  /** A monkey of the source; only its items and inspection count change. */
  class Monkey {
    var items: seq<nat>
    const operation: Operation
    const divisor: nat
    const successTarget: nat
    const failureTarget: nat
    var inspections: nat

    function Value(): MonkeyValue
      reads this
    {
      MonkeyValue(items, operation, divisor, successTarget, failureTarget, inspections)
    }

    constructor(items: seq<nat>, operation: Operation, divisor: nat, successTarget: nat, failureTarget: nat)
      ensures Value() == MonkeyValue(items, operation, divisor, successTarget, failureTarget, 0)
    {
      this.items := items;
      this.operation := operation;
      this.divisor := divisor;
      this.successTarget := successTarget;
      this.failureTarget := failureTarget;
      this.inspections := 0;
    }

    /** Inspect every item in order, returning where each goes, then drop
        them all. */
    method ProcessItems(relax: Relax) returns (targets: seq<ItemThrow>)
      requires ValidRelax(relax)
      modifies this
      ensures targets == Throws(old(Value()), relax)
      ensures Value() == Processed(old(Value()))
    {
      targets := [];
      var k := 0;
      while k < |items|
        invariant 0 <= k <= |items| && items == old(items)
        invariant inspections == old(inspections) + k
        invariant targets == Throws(old(Value()), relax)[..k]
      {
        var item := items[k];
        var increasedWorry := ApplyOperation(operation, item);
        var relaxedWorry := RelaxWorry(relax, increasedWorry);
        var success := Passes(divisor, relaxedWorry);
        inspections := inspections + 1;
        targets := targets + [ItemThrow(relaxedWorry, if success then successTarget else failureTarget)];
        k := k + 1;
      }
      items := [];
    }
  }

  /** The monkeys of an array are distinct objects. */
  ghost predicate Distinct(monkeys: array<Monkey>)
    reads monkeys
  {
    forall i, j :: 0 <= i < j < monkeys.Length ==> monkeys[i] != monkeys[j]
  }

  ghost function Monkeys(monkeys: array<Monkey>): set<Monkey>
    reads monkeys
  {
    set i | 0 <= i < monkeys.Length :: monkeys[i]
  }

  ghost function Snapshot(monkeys: array<Monkey>): (ms: seq<MonkeyValue>)
    reads monkeys, Monkeys(monkeys)
    ensures |ms| == monkeys.Length
  {
    seq(monkeys.Length, i requires 0 <= i < monkeys.Length reads monkeys, Monkeys(monkeys) => monkeys[i].Value())
  }

  /** Changing one monkey of the array changes that entry of the
      snapshot only. */
  lemma SnapshotUpdate(monkeys: array<Monkey>, t: nat, before: seq<MonkeyValue>, m: MonkeyValue)
    requires Distinct(monkeys) && t < monkeys.Length && |before| == monkeys.Length
    requires monkeys[t].Value() == m
    requires forall k :: 0 <= k < monkeys.Length && k != t ==> monkeys[k].Value() == before[k]
    ensures Snapshot(monkeys) == before[t := m]
  {
  }

  /** `monkeys[t].items.push(item)`. */
  method Push(monkeys: array<Monkey>, t: nat, item: nat)
    requires Distinct(monkeys) && t < monkeys.Length
    modifies monkeys[t]
    ensures Snapshot(monkeys) ==
      old(Snapshot(monkeys))[t := old(Snapshot(monkeys))[t].(items := old(Snapshot(monkeys))[t].items + [item])]
  {
    ghost var current := Snapshot(monkeys);
    var target := monkeys[t];
    target.items := target.items + [item];
    SnapshotUpdate(monkeys, t, current, current[t].(items := current[t].items + [item]));
  }

  /** `round`: every monkey in order processes its items and each thrown
      item is pushed onto its target. */
  method Round(monkeys: array<Monkey>, relax: Relax) returns (r: Result<()>)
    requires Distinct(monkeys) && ValidRelax(relax)
    modifies Monkeys(monkeys)
    ensures r.Success? <==> RoundFrom(old(Snapshot(monkeys)), 0, relax).Success?
    ensures r.Success? ==> Snapshot(monkeys) == RoundFrom(old(Snapshot(monkeys)), 0, relax).value
  {
    var i := 0;
    while i < monkeys.Length
      invariant 0 <= i <= monkeys.Length
      invariant RoundFrom(old(Snapshot(monkeys)), 0, relax) == RoundFrom(Snapshot(monkeys), i, relax)
    {
      ghost var before := Snapshot(monkeys);
      var monkey := monkeys[i];
      var throws := monkey.ProcessItems(relax);
      SnapshotUpdate(monkeys, i, before, Processed(before[i]));
      var delivered := DeliverAll(monkeys, throws);
      if delivered.Failure? {
        return delivered;
      }
      i := i + 1;
    }
    return Success(());
  }

  /** The inner loop of `round`: every thrown item in turn is pushed onto
      its target; a target past the last monkey is `undefined` and throws. */
  method DeliverAll(monkeys: array<Monkey>, throws: seq<ItemThrow>) returns (r: Result<()>)
    requires Distinct(monkeys)
    modifies Monkeys(monkeys)
    ensures r.Success? <==> Deliver(old(Snapshot(monkeys)), throws).Success?
    ensures r.Success? ==> Snapshot(monkeys) == Deliver(old(Snapshot(monkeys)), throws).value
  {
    ghost var start := Snapshot(monkeys);
    var j := 0;
    while j < |throws|
      invariant 0 <= j <= |throws|
      invariant Deliver(start, throws) == Deliver(Snapshot(monkeys), throws[j..])
    {
      var itemThrow := throws[j];
      if itemThrow.monkey >= monkeys.Length {
        return Failure("Cannot read properties of undefined");
      }
      Push(monkeys, itemThrow.monkey, itemThrow.item);
      assert throws[j..][1..] == throws[j + 1..];
      j := j + 1;
    }
    return Success(());
  }

  /** The states after each of `rounds` rounds. */
  function Rounds(ms: seq<MonkeyValue>, relax: Relax, rounds: nat): (r: Result<seq<MonkeyValue>>)
    requires ValidRelax(relax)
    ensures r.Success? ==> |r.value| == |ms|
  {
    if rounds == 0 then Success(ms)
    else match Rounds(ms, relax, rounds - 1)
      case Failure(e) => Failure(e)
      case Success(s) => RoundFrom(s, 0, relax)
  }

  function Inspections(ms: seq<MonkeyValue>): (r: seq<int>)
    ensures |r| == |ms|
  {
    seq(|ms|, i requires 0 <= i < |ms| => ms[i].inspections)
  }

  /** `simulate`: run the rounds on the monkeys, then the monkey
      business of their inspection counts. */
  method Simulate(monkeys: array<Monkey>, relax: Relax, rounds: nat) returns (r: Result<int>)
    requires Distinct(monkeys) && ValidRelax(relax)
    modifies Monkeys(monkeys)
    ensures Rounds(old(Snapshot(monkeys)), relax, rounds).Failure? ==> r.Failure?
    ensures Rounds(old(Snapshot(monkeys)), relax, rounds).Success? ==>
      r == MonkeyBusiness(Inspections(Rounds(old(Snapshot(monkeys)), relax, rounds).value))
  {
    var ok := RunRounds(monkeys, relax, rounds);
    if ok.Failure? {
      return Failure(ok.message);
    }
    var counts := ReadInspections(monkeys);
    r := MonkeyBusiness(counts);
  }

  /** The rounds of `simulate`, run on the monkeys in place. */
  method RunRounds(monkeys: array<Monkey>, relax: Relax, rounds: nat) returns (r: Result<()>)
    requires Distinct(monkeys) && ValidRelax(relax)
    modifies Monkeys(monkeys)
    ensures r.Success? <==> Rounds(old(Snapshot(monkeys)), relax, rounds).Success?
    ensures r.Success? ==> Snapshot(monkeys) == Rounds(old(Snapshot(monkeys)), relax, rounds).value
  {
    ghost var start := Snapshot(monkeys);
    var k := 0;
    while k < rounds
      invariant 0 <= k <= rounds
      invariant Rounds(start, relax, k) == Success(Snapshot(monkeys))
    {
      var ok := Round(monkeys, relax);
      if ok.Failure? {
        RoundsFailStay(start, relax, k + 1, rounds);
        return Failure(ok.message);
      }
      k := k + 1;
    }
    r := Success(());
  }

  /** The inspection counts of the monkeys, in array order. */
  method ReadInspections(monkeys: array<Monkey>) returns (counts: seq<int>)
    ensures counts == Inspections(Snapshot(monkeys))
  {
    counts := seq(monkeys.Length, i requires 0 <= i < monkeys.Length reads monkeys, Monkeys(monkeys) => monkeys[i].inspections);
  }

  /** Part 1: twenty rounds, worry divided by three after each
      inspection. */
  method Part1(monkeys: array<Monkey>) returns (r: Result<int>)
    requires Distinct(monkeys)
    modifies Monkeys(monkeys)
    ensures Rounds(old(Snapshot(monkeys)), DivideByThree, 20).Success? ==>
      r == MonkeyBusiness(Inspections(Rounds(old(Snapshot(monkeys)), DivideByThree, 20).value))
  {
    r := Simulate(monkeys, DivideByThree, 20);
  }

  function Divisors(ms: seq<MonkeyValue>): (ds: seq<nat>)
    ensures |ds| == |ms| && forall i :: 0 <= i < |ms| ==> ds[i] == ms[i].divisor
  {
    seq(|ms|, i requires 0 <= i < |ms| => ms[i].divisor)
  }

  /** Part 2: ten thousand rounds, worry kept modulo the product of the
      divisors. Without monkeys the final `monkeyBusiness` throws. */
  method Part2(monkeys: array<Monkey>) returns (r: Result<int>)
    requires Distinct(monkeys)
    requires forall i :: 0 <= i < monkeys.Length ==> monkeys[i].divisor > 0
    modifies Monkeys(monkeys)
    ensures monkeys.Length == 0 ==> r.Failure?
    ensures monkeys.Length > 0 ==>
      var relax := Modulo(GetLcm(Divisors(old(Snapshot(monkeys)))).value);
      && ValidRelax(relax)
      && (Rounds(old(Snapshot(monkeys)), relax, 10 * 1000).Success? ==>
           r == MonkeyBusiness(Inspections(Rounds(old(Snapshot(monkeys)), relax, 10 * 1000).value)))
  {
    var divisors := seq(monkeys.Length, i requires 0 <= i < monkeys.Length reads monkeys, Monkeys(monkeys) => monkeys[i].divisor);
    assert divisors == Divisors(Snapshot(monkeys));
    var lcm := GetLcm(divisors);
    if lcm.None? {
      return Failure("Cannot read properties of undefined");
    }
    LcmKeepsEveryTest(divisors, 0, 0);
    r := Simulate(monkeys, Modulo(lcm.value), 10 * 1000);
  }

  /** Once a round fails, every later count of rounds fails too. */
  lemma {:induction false} RoundsFailStay(ms: seq<MonkeyValue>, relax: Relax, k: nat, n: nat)
    requires ValidRelax(relax) && k <= n && Rounds(ms, relax, k).Failure?
    ensures Rounds(ms, relax, n).Failure?
    decreases n - k
  {
    if k < n {
      RoundsFailStay(ms, relax, k + 1, n);
    }
  }

  /** Inspections only grow over a round. */
  lemma {:induction false} RoundKeepsInspections(ms: seq<MonkeyValue>, i: nat, relax: Relax)
    requires i <= |ms| && ValidRelax(relax) && RoundFrom(ms, i, relax).Success?
    ensures forall k :: 0 <= k < |ms| ==> RoundFrom(ms, i, relax).value[k].inspections >= ms[k].inspections
    ensures forall k :: i <= k < |ms| ==>
      RoundFrom(ms, i, relax).value[k].inspections >= ms[k].inspections + |ms[k].items|
    decreases |ms| - i
  {
    if i < |ms| {
      var emptied := ms[i := Processed(ms[i])];
      DeliverKeepsInspections(emptied, Throws(ms[i], relax));
      var next := Deliver(emptied, Throws(ms[i], relax)).value;
      RoundKeepsInspections(next, i + 1, relax);
    }
  }

  lemma {:induction false} DeliverKeepsInspections(ms: seq<MonkeyValue>, throws: seq<ItemThrow>)
    requires Deliver(ms, throws).Success?
    ensures forall k :: 0 <= k < |ms| ==>
      Deliver(ms, throws).value[k].inspections == ms[k].inspections
      && |Deliver(ms, throws).value[k].items| >= |ms[k].items|
    decreases |throws|
  {
    if throws != [] {
      var t := throws[0];
      DeliverKeepsInspections(ms[t.monkey := ms[t.monkey].(items := ms[t.monkey].items + [t.item])], throws[1..]);
    }
  }
}
