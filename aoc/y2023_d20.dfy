/** 2023 day 20: a network of modules passing high and low pulses. A
    broadcaster forwards what it gets, a flip-flop toggles on a low pulse
    and reports its new state, a conjunction remembers the last pulse from
    each input and sends low only when all of them were high. Pressing the
    button sends one low pulse to the broadcaster; part 1 counts the pulses
    of 1000 presses. */
module Day2023_20 {
  import opened Common

  datatype Pulse = Low | High

  datatype Kind = Broadcast | FlipFlop | Conjunction

  /** A module's state as a value: its kind and wiring, a flip-flop's
    * `on`, a conjunction's remembered pulses. */
  datatype ModuleState = ModuleState(kind: Kind, inputs: seq<string>, outputs: seq<string>, on: bool, status: map<string, Pulse>)

  /** The same pulse type to every output, in order. */
  function SendAll(pulse: Pulse, outputs: seq<string>): (out: seq<(Pulse, string)>)
    ensures |out| == |outputs| && forall i :: 0 <= i < |outputs| ==> out[i] == (pulse, outputs[i])
  {
    seq(|outputs|, i requires 0 <= i < |outputs| => (pulse, outputs[i]))
  }

  /** Every input's remembered pulse is high; one never heard from is not. */
  predicate AllHigh(inputs: seq<string>, status: map<string, Pulse>)
  {
    forall i :: 0 <= i < |inputs| ==> inputs[i] in status && status[inputs[i]] == High
  }

  /** `process` of each kind of module, on a pulse of type `pulse` from
    * `source`: the new state and the pulses sent, with their
    * destinations. */
  function ProcessValue(m: ModuleState, pulse: Pulse, source: string): (ModuleState, seq<(Pulse, string)>)
  {
    match m.kind
    case Broadcast => (m, SendAll(pulse, m.outputs))
    case FlipFlop =>
      if pulse == High then (m, [])
      else (m.(on := !m.on), SendAll(if !m.on then High else Low, m.outputs))
    case Conjunction =>
      var status := m.status[source := pulse];
      (m.(status := status), SendAll(if AllHigh(m.inputs, status) then Low else High, m.outputs))
  }

  /** A module of the network, whose state `process` updates in place. */
  class Module {
    const kind: Kind
    const inputs: seq<string>
    const outputs: seq<string>
    var on: bool
    var status: map<string, Pulse>

    function Value(): ModuleState
      reads this
    {
      ModuleState(kind, inputs, outputs, on, status)
    }

    /** A new module: a flip-flop starts off, a conjunction has heard
      * nothing. */
    constructor (kind: Kind, inputs: seq<string>, outputs: seq<string>)
      ensures Value() == ModuleState(kind, inputs, outputs, false, map[])
    {
      this.kind := kind;
      this.inputs := inputs;
      this.outputs := outputs;
      on := false;
      status := map[];
    }

    /** `process`: the pulses sent in answer to one pulse, and the state
      * updated. */
    method Process(pulse: Pulse, source: string) returns (out: seq<(Pulse, string)>)
      modifies this
      ensures (Value(), out) == ProcessValue(old(Value()), pulse, source)
    {
      match kind {
        case Broadcast =>
          out := SendAll(pulse, outputs);
        case FlipFlop =>
          if pulse == High {
            out := [];
          } else {
            on := !on;
            var send := if on then High else Low;
            out := SendAll(send, outputs);
          }
        case Conjunction =>
          status := status[source := pulse];
          var outputType := if AllHigh(inputs, status) then Low else High;
          out := SendAll(outputType, outputs);
      }
    }
  }

  /** A broadcaster forwards the pulse's type to every output and keeps its
    * state. */
  lemma BroadcastForwards(m: ModuleState, pulse: Pulse, source: string)
    requires m.kind == Broadcast
    ensures var (m', out) := ProcessValue(m, pulse, source);
      m' == m && |out| == |m.outputs| && forall i :: 0 <= i < |out| ==> out[i] == (pulse, m.outputs[i])
  {
  }

  /** A flip-flop ignores a high pulse; on a low pulse it toggles and sends
    * high exactly when it is now on; two low pulses bring it back. */
  lemma FlipFlopMeaning(m: ModuleState, source: string)
    requires m.kind == FlipFlop
    ensures ProcessValue(m, High, source) == (m, [])
    ensures var (m', out) := ProcessValue(m, Low, source);
      m'.on == !m.on && m'.(on := m.on) == m && |out| == |m.outputs|
      && forall i :: 0 <= i < |out| ==> out[i] == (if m'.on then High else Low, m.outputs[i])
    ensures ProcessValue(ProcessValue(m, Low, source).0, Low, source).0 == m
  {
  }

  /** A conjunction records the pulse against its source and sends low
    * exactly when every input's last pulse was high. */
  lemma ConjunctionMeaning(m: ModuleState, pulse: Pulse, source: string)
    requires m.kind == Conjunction
    ensures var (m', out) := ProcessValue(m, pulse, source);
      && m'.status == m.status[source := pulse] && m'.(status := m.status) == m
      && |out| == |m.outputs|
      && forall i :: 0 <= i < |out| ==>
        out[i].1 == m.outputs[i]
        && (out[i].0 == Low <==> forall j :: 0 <= j < |m.inputs| ==> m.inputs[j] in m'.status && m'.status[m.inputs[j]] == High)
  {
  }

  // ---------------------------------------------------------------------------
  // loadInput: the inputs map and the network
  // ---------------------------------------------------------------------------

  /** A parsed line: the module's kind, name and outputs. */
  datatype InputLine = InputLine(kind: Kind, name: string, outputs: seq<string>)

  /** The names pushed for `target` while reading `outputs` of `name`: one
    * per occurrence. */
  function Pushes(name: string, outputs: seq<string>, target: string): seq<string>
  {
    if outputs == [] then []
    else Pushes(name, outputs[..|outputs| - 1], target) + if outputs[|outputs| - 1] == target then [name] else []
  }

  /** The inputs of `target`: every line listing it among its outputs, in
    * order. */
  function InputsOf(lines: seq<InputLine>, target: string): seq<string>
  {
    if lines == [] then []
    else
      var last := lines[|lines| - 1];
      InputsOf(lines[..|lines| - 1], target) + Pushes(last.name, last.outputs, target)
  }

  /** The value `inputsMap[name] || []` stands for. */
  function Lookup(inputsMap: map<string, seq<string>>, name: string): seq<string>
  {
    if name in inputsMap then inputsMap[name] else []
  }

  /** `inputsMap` holds the inputs found in `lines`, then in `outputs` of
    * the line named `name`; every key holds at least one name. */
  ghost predicate Represents(inputsMap: map<string, seq<string>>, lines: seq<InputLine>, name: string, outputs: seq<string>)
  {
    && (forall target :: Lookup(inputsMap, target) == InputsOf(lines, target) + Pushes(name, outputs, target))
    && (forall target :: target in inputsMap ==> inputsMap[target] != [])
  }

  /** Pushing `name` for one more output keeps the map in step. */
  lemma {:induction false} PushStep(inputsMap: map<string, seq<string>>, lines: seq<InputLine>, name: string, outputs: seq<string>, output: string)
    requires Represents(inputsMap, lines, name, outputs)
    ensures Represents(inputsMap[output := Lookup(inputsMap, output) + [name]], lines, name, outputs + [output])
  {
    var updated := inputsMap[output := Lookup(inputsMap, output) + [name]];
    forall target
      ensures Lookup(updated, target) == InputsOf(lines, target) + Pushes(name, outputs + [output], target)
    {
      PushTarget(Lookup(inputsMap, target), lines, name, outputs, output, target);
    }
  }

  /** One target's entry after pushing `name` for `output`. */
  lemma PushTarget(entry: seq<string>, lines: seq<InputLine>, name: string, outputs: seq<string>, output: string, target: string)
    requires entry == InputsOf(lines, target) + Pushes(name, outputs, target)
    ensures (if target == output then entry + [name] else entry) == InputsOf(lines, target) + Pushes(name, outputs + [output], target)
  {
    var pushed := outputs + [output];
    assert pushed[..|pushed| - 1] == outputs;
  }

  /** After a line's last output, the line counts among those read. */
  lemma {:induction false} LineStep(inputsMap: map<string, seq<string>>, lines: seq<InputLine>, line: InputLine)
    requires Represents(inputsMap, lines, line.name, line.outputs)
    ensures Represents(inputsMap, lines + [line], line.name, [])
  {
    var read := lines + [line];
    assert read[..|read| - 1] == lines;
  }

  /** The nested loops building `inputsMap`: a key for every name some line
    * lists as an output, holding that name's inputs. */
  method InputsMap(lines: seq<InputLine>) returns (inputsMap: map<string, seq<string>>)
    ensures forall target :: Lookup(inputsMap, target) == InputsOf(lines, target)
    ensures forall target :: target in inputsMap <==> InputsOf(lines, target) != []
  {
    inputsMap := map[];
    for k := 0 to |lines|
      invariant Represents(inputsMap, lines[..k], "", [])
    {
      var line := lines[k];
      for j := 0 to |line.outputs|
        invariant Represents(inputsMap, lines[..k], line.name, line.outputs[..j])
      {
        var output := line.outputs[j];
        PushStep(inputsMap, lines[..k], line.name, line.outputs[..j], output);
        assert line.outputs[..j] + [output] == line.outputs[..j + 1];
        if output in inputsMap {
          inputsMap := inputsMap[output := inputsMap[output] + [line.name]];
        } else {
          inputsMap := inputsMap[output := [line.name]];
        }
      }
      assert line.outputs[..|line.outputs|] == line.outputs;
      LineStep(inputsMap, lines[..k], line);
      assert lines[..k] + [line] == lines[..k + 1];
    }
    assert lines[..|lines|] == lines;
  }

  lemma {:induction false} PushesMeaning(name: string, outputs: seq<string>, target: string, n: string)
    ensures n in Pushes(name, outputs, target) <==> n == name && target in outputs
  {
    if outputs != [] {
      PushesMeaning(name, outputs[..|outputs| - 1], target, n);
      assert outputs == outputs[..|outputs| - 1] + [outputs[|outputs| - 1]];
    }
  }

  /** A module's inputs are exactly the modules listing it as an output. */
  lemma {:induction false} InputsOfMeaning(lines: seq<InputLine>, target: string, n: string)
    ensures n in InputsOf(lines, target) <==> exists k :: 0 <= k < |lines| && lines[k].name == n && target in lines[k].outputs
  {
    if lines != [] {
      var init := lines[..|lines| - 1];
      var last := lines[|lines| - 1];
      InputsOfMeaning(init, target, n);
      PushesMeaning(last.name, last.outputs, target, n);
      if exists k :: 0 <= k < |lines| && lines[k].name == n && target in lines[k].outputs {
        var k :| 0 <= k < |lines| && lines[k].name == n && target in lines[k].outputs;
        if k < |init| {
          assert init[k] == lines[k];
        }
      }
      if n in InputsOf(init, target) {
        var k :| 0 <= k < |init| && init[k].name == n && target in init[k].outputs;
        assert lines[k] == init[k];
      }
    }
  }

  /** The modules of the network are distinct objects. */
  ghost predicate Distinct(network: map<string, Module>)
  {
    forall a, b :: a in network && b in network && a != b ==> network[a] != network[b]
  }

  function Objects(network: map<string, Module>): set<Module>
  {
    set name | name in network :: network[name]
  }

  /** The state of the whole network, as values. */
  function States(network: map<string, Module>): map<string, ModuleState>
    reads Objects(network)
  {
    map name | name in network :: network[name].Value()
  }

  /** The line a module comes from: the last with its name. */
  ghost predicate IsLastLine(lines: seq<InputLine>, name: string, k: int)
  {
    0 <= k < |lines| && lines[k].name == name && forall j :: k < j < |lines| ==> lines[j].name != name
  }

  /** The module line `k` creates. */
  function Expected(lines: seq<InputLine>, k: nat): ModuleState
    requires k < |lines|
  {
    ModuleState(lines[k].kind, InputsOf(lines, lines[k].name), lines[k].outputs, false, map[])
  }

  /** The network holds a module for every name among the first `count`
    * lines, the one the last line of that name creates. */
  ghost predicate Loaded(network: map<string, Module>, lines: seq<InputLine>, count: nat)
    requires count <= |lines|
    reads Objects(network)
  {
    && (forall name :: name in network <==> exists i :: 0 <= i < count && lines[i].name == name)
    && (forall name, i :: name in network && IsLastLine(lines[..count], name, i) ==> network[name].Value() == Expected(lines, i))
  }

  lemma {:induction false} LastLineStep(lines: seq<InputLine>, k: nat, name: string, i: int)
    requires k < |lines| && IsLastLine(lines[..k + 1], name, i)
    ensures name == lines[k].name ==> i == k
    ensures name != lines[k].name ==> IsLastLine(lines[..k], name, i)
  {
  }

  /** Storing an object not in the network yet keeps its modules
    * distinct. */
  lemma DistinctStep(network: map<string, Module>, name: string, created: Module)
    requires Distinct(network) && created !in Objects(network)
    ensures Distinct(network[name := created])
  {
    var network' := network[name := created];
    forall a, b | a in network' && b in network' && a != b
      ensures network'[a] != network'[b]
    {
      if a == name {
        assert network'[b] in Objects(network);
      } else if b == name {
        assert network'[a] in Objects(network);
      }
    }
  }

  /** Storing line `k`'s module under its name loads one more line. */
  lemma {:induction false} LoadedStep(network: map<string, Module>, lines: seq<InputLine>, k: nat, created: Module)
    requires k < |lines| && Loaded(network, lines, k) && created.Value() == Expected(lines, k)
    ensures Loaded(network[lines[k].name := created], lines, k + 1)
  {
    var network' := network[lines[k].name := created];
    forall name, i | name in network' && IsLastLine(lines[..k + 1], name, i)
      ensures network'[name].Value() == Expected(lines, i)
    {
      LastLineStep(lines, k, name, i);
    }
  }

  /** The loop building the network: a new module for every line, with the
    * inputs from `inputsMap` (none when absent); a later line of the same
    * name replaces an earlier one. */
  method BuildNetwork(lines: seq<InputLine>) returns (network: map<string, Module>)
    ensures Distinct(network)
    ensures forall name :: name in network ==> fresh(network[name])
    ensures forall name :: name in network <==> exists k :: 0 <= k < |lines| && lines[k].name == name
    ensures forall name, k :: name in network && IsLastLine(lines, name, k) ==>
      network[name].Value() == ModuleState(lines[k].kind, InputsOf(lines, name), lines[k].outputs, false, map[])
  {
    var inputsMap := InputsMap(lines);
    network := map[];
    for k := 0 to |lines|
      invariant Distinct(network)
      invariant forall name :: name in network ==> fresh(network[name])
      invariant Loaded(network, lines, k)
    {
      var line := lines[k];
      var inputs := Lookup(inputsMap, line.name);
      var created := new Module(line.kind, inputs, line.outputs);
      assert created !in Objects(network);
      DistinctStep(network, line.name, created);
      LoadedStep(network, lines, k, created);
      network := network[line.name := created];
    }
    LoadedAll(network, lines);
  }

  /** All lines loaded: the names are those of the lines, each module the
    * last line of its name creates. */
  lemma LoadedAll(network: map<string, Module>, lines: seq<InputLine>)
    requires Loaded(network, lines, |lines|)
    ensures forall name :: name in network <==> exists k :: 0 <= k < |lines| && lines[k].name == name
    ensures forall name, k :: name in network && IsLastLine(lines, name, k) ==>
      network[name].Value() == ModuleState(lines[k].kind, InputsOf(lines, name), lines[k].outputs, false, map[])
  {
    assert lines[..|lines|] == lines;
  }

  // ---------------------------------------------------------------------------
  // press
  // ---------------------------------------------------------------------------

  /** A pulse in the queue, with where it comes from and goes to. */
  datatype QueuedPulse = QueuedPulse(pulse: Pulse, source: string, destination: string)

  datatype Counts = Counts(low: nat, high: nat)

  function CountPulse(counts: Counts, pulse: Pulse): Counts
  {
    if pulse == Low then counts.(low := counts.low + 1) else counts.(high := counts.high + 1)
  }

  /** The pulses a module sends, queued with the module as their source. */
  function Outgoing(source: string, out: seq<(Pulse, string)>): (queued: seq<QueuedPulse>)
    ensures |queued| == |out| && forall i :: 0 <= i < |out| ==> queued[i] == QueuedPulse(out[i].0, source, out[i].1)
  {
    seq(|out|, i requires 0 <= i < |out| => QueuedPulse(out[i].0, source, out[i].1))
  }

  /** One pulse delivered: a pulse to a name with no module changes nothing
    * and sends nothing. */
  function Deliver(states: map<string, ModuleState>, pulse: QueuedPulse): (map<string, ModuleState>, seq<QueuedPulse>)
  {
    if pulse.destination !in states then (states, [])
    else
      var (m, out) := ProcessValue(states[pulse.destination], pulse.pulse, pulse.source);
      (states[pulse.destination := m], Outgoing(pulse.destination, out))
  }

  /** The queue worked through first in, first out, counting every pulse
    * taken by its type; at most `fuel` pulses are taken, since pulses can
    * circle for ever. */
  function Run(states: map<string, ModuleState>, queue: seq<QueuedPulse>, counts: Counts, fuel: nat): Result<(map<string, ModuleState>, Counts)>
    decreases fuel
  {
    if queue == [] then Success((states, counts))
    else if fuel == 0 then Failure("out of fuel")
    else
      var (states', out) := Deliver(states, queue[0]);
      Run(states', queue[1..] + out, CountPulse(counts, queue[0].pulse), fuel - 1)
  }

  const ButtonPulse := QueuedPulse(Low, "button", "broadcaster")

  /** `press`: the loop taking the first pulse of the queue, counting it,
    * and queueing what its module sends. */
  method Press(network: map<string, Module>, counts: Counts, fuel: nat) returns (r: Result<Counts>)
    requires Distinct(network)
    modifies Objects(network)
    ensures var run := Run(old(States(network)), [ButtonPulse], counts, fuel);
      r.Success? == run.Success? && (r.Success? ==> r.value == run.value.1 && States(network) == run.value.0)
  {
    var stack := [ButtonPulse];
    var current := counts;
    var left := fuel;
    while stack != []
      invariant Run(old(States(network)), [ButtonPulse], counts, fuel) == Run(States(network), stack, current, left)
      decreases left
    {
      if left == 0 {
        return Failure("out of fuel");
      }
      var pulse := stack[0];
      ghost var before := States(network);
      assert Run(before, stack, current, left) ==
        Run(Deliver(before, pulse).0, stack[1..] + Deliver(before, pulse).1, CountPulse(current, pulse.pulse), left - 1);
      stack := stack[1..];
      current := CountPulse(current, pulse.pulse);
      left := left - 1;
      if pulse.destination !in network {
        assert stack + [] == stack;
        continue;
      }
      var outgoing := DeliverPulse(network, pulse);
      stack := stack + outgoing;
    }
    return Success(current);
  }

  /** The body of the loop for a pulse to an existing module: its module
    * processes it, and the pulses it sends come back with it as their
    * source. */
  method DeliverPulse(network: map<string, Module>, pulse: QueuedPulse) returns (outgoing: seq<QueuedPulse>)
    requires Distinct(network) && pulse.destination in network
    modifies network[pulse.destination]
    ensures (States(network), outgoing) == Deliver(old(States(network)), pulse)
  {
    ghost var before := States(network);
    var target := network[pulse.destination];
    var out := target.Process(pulse.pulse, pulse.source);
    forall name | name in network
      ensures States(network)[name] == before[pulse.destination := target.Value()][name]
    {
      if name != pulse.destination {
        assert network[name] != target;
      }
    }
    assert States(network) == before[pulse.destination := target.Value()];
    outgoing := [];
    for i := 0 to |out|
      invariant outgoing == Outgoing(pulse.destination, out[..i])
    {
      outgoing := outgoing + [QueuedPulse(out[i].0, pulse.destination, out[i].1)];
    }
    assert out[..|out|] == out;
  }

  /** The pulses of one type in a queue. */
  function CountOf(queue: seq<QueuedPulse>, pulse: Pulse): nat
  {
    if queue == [] then 0
    else CountOf(queue[..|queue| - 1], pulse) + if queue[|queue| - 1].pulse == pulse then 1 else 0
  }

  lemma {:induction false} CountOfAppend(a: seq<QueuedPulse>, b: seq<QueuedPulse>, pulse: Pulse)
    ensures CountOf(a + b, pulse) == CountOf(a, pulse) + CountOf(b, pulse)
    decreases |b|
  {
    if b == [] {
      assert a + b == a;
    } else {
      CountOfAppend(a, b[..|b| - 1], pulse);
      assert (a + b)[..|a + b| - 1] == a + b[..|b| - 1];
      assert (a + b)[|a + b| - 1] == b[|b| - 1];
    }
  }

  lemma CountOfFront(queue: seq<QueuedPulse>, pulse: Pulse)
    requires queue != []
    ensures CountOf(queue, pulse) == CountOf(queue[1..], pulse) + if queue[0].pulse == pulse then 1 else 0
  {
    CountOfAppend([queue[0]], queue[1..], pulse);
    assert [queue[0]] + queue[1..] == queue;
  }

  /** Every pulse queued is counted, by its type: a finished run adds at
    * least the queue's pulses of each type to the counts. */
  lemma {:induction false} RunCountsQueue(states: map<string, ModuleState>, queue: seq<QueuedPulse>, counts: Counts, fuel: nat)
    requires Run(states, queue, counts, fuel).Success?
    ensures var c := Run(states, queue, counts, fuel).value.1;
      c.low >= counts.low + CountOf(queue, Low) && c.high >= counts.high + CountOf(queue, High)
    decreases fuel
  {
    if queue != [] {
      var (states', out) := Deliver(states, queue[0]);
      RunCountsQueue(states', queue[1..] + out, CountPulse(counts, queue[0].pulse), fuel - 1);
      CountOfAppend(queue[1..], out, Low);
      CountOfAppend(queue[1..], out, High);
      CountOfFront(queue, Low);
      CountOfFront(queue, High);
    }
  }

  /** More fuel changes no finished run. */
  lemma {:induction false} RunFuel(states: map<string, ModuleState>, queue: seq<QueuedPulse>, counts: Counts, fuel: nat, more: nat)
    requires Run(states, queue, counts, fuel).Success? && fuel <= more
    ensures Run(states, queue, counts, more) == Run(states, queue, counts, fuel)
    decreases fuel
  {
    if queue != [] {
      var (states', out) := Deliver(states, queue[0]);
      RunFuel(states', queue[1..] + out, CountPulse(counts, queue[0].pulse), fuel - 1, more - 1);
    }
  }

  /** A pulse to a name without a module changes no state and sends
    * nothing; any other keeps the network's names and changes only its
    * destination's state. */
  lemma DeliverMeaning(states: map<string, ModuleState>, pulse: QueuedPulse)
    ensures pulse.destination !in states ==> Deliver(states, pulse) == (states, [])
    ensures var (states', out) := Deliver(states, pulse);
      states'.Keys == states.Keys
      && (forall name :: name in states && name != pulse.destination ==> states'[name] == states[name])
      && (forall i :: 0 <= i < |out| ==> out[i].source == pulse.destination)
  {
  }

  /** Part 1's presses: the counts carried from press to press. */
  function Presses(states: map<string, ModuleState>, counts: Counts, n: nat, fuel: nat): Result<(map<string, ModuleState>, Counts)>
  {
    if n == 0 then Success((states, counts))
    else
      match Presses(states, counts, n - 1, fuel)
      case Failure(message) => Failure(message)
      case Success((states', counts')) => Run(states', [ButtonPulse], counts', fuel)
  }

  /** Once a press fails, so do all the presses after it. */
  lemma {:induction false} PressesFailureStays(states: map<string, ModuleState>, counts: Counts, i: nat, n: nat, fuel: nat)
    requires i <= n && Presses(states, counts, i, fuel).Failure?
    ensures Presses(states, counts, n, fuel).Failure?
  {
    if i < n {
      PressesFailureStays(states, counts, i, n - 1, fuel);
    }
  }

  /** Part 1: 1000 presses, then the low count times the high count. */
  method Part1(network: map<string, Module>, fuel: nat) returns (r: Result<int>)
    requires Distinct(network)
    modifies Objects(network)
    ensures var run := Presses(old(States(network)), Counts(0, 0), 1000, fuel);
      r.Success? == run.Success? && (r.Success? ==> r.value == run.value.1.low * run.value.1.high)
  {
    var counts := Counts(0, 0);
    for i := 0 to 1000
      invariant Presses(old(States(network)), Counts(0, 0), i, fuel) == Success((States(network), counts))
    {
      var pressed := Press(network, counts, fuel);
      if pressed.Failure? {
        PressesFailureStays(old(States(network)), Counts(0, 0), i + 1, 1000, fuel);
        return Failure(pressed.message);
      }
      counts := pressed.value;
    }
    return Success(counts.low * counts.high);
  }

  /** Every press counts at least the button's own low pulse. */
  lemma {:induction false} PressesCountLow(states: map<string, ModuleState>, counts: Counts, n: nat, fuel: nat)
    requires Presses(states, counts, n, fuel).Success?
    ensures Presses(states, counts, n, fuel).value.1.low >= counts.low + n
  {
    if n > 0 {
      PressesCountLow(states, counts, n - 1, fuel);
      var (states', counts') := Presses(states, counts, n - 1, fuel).value;
      RunCountsQueue(states', [ButtonPulse], counts', fuel);
      assert CountOf([ButtonPulse], Low) == 1 by {
        assert [ButtonPulse][..0] == [];
      }
    }
  }
}
