/** 2023 day 15: the HASH of a string, and a table of 256 boxes of
    labelled lenses, where each step puts a lens into the box its name
    hashes to, or takes it out. */
module Day2023_15 {
  import opened Common

  // ---------------------------------------------------------------------------
  // HASH
  // ---------------------------------------------------------------------------

  /** One character's update: add its code, times 17, modulo 256. */
  function HashStep(hash: int, c: char): int
  {
    ((hash + c as int) * 17) % 256
  }

  /** The hash after the characters of `s`, starting from `start`. */
  function HashFrom(start: int, s: string): int
  {
    if |s| == 0 then start else HashStep(HashFrom(start, s[..|s| - 1]), s[|s| - 1])
  }

  /** `computeHash`. */
  function Hash(s: string): int
  {
    HashFrom(0, s)
  }

  /** The loop of `computeHash`. */
  method ComputeHash(str: string) returns (hash: int)
    ensures hash == Hash(str)
  {
    hash := 0;
    for c := 0 to |str|
      invariant hash == Hash(str[..c])
    {
      assert str[..c + 1][..c] == str[..c];
      hash := hash + str[c] as int;
      hash := hash * 17;
      hash := hash % 256;
    }
    assert str[..|str|] == str;
  }

  /** The hash is a byte, and the empty string hashes to 0. */
  lemma HashRange(s: string)
    ensures 0 <= Hash(s) < 256
    ensures s == [] ==> Hash(s) == 0
  {
  }

  /** The hash streams: hashing `a + b` hashes `b` from where `a` left it. */
  lemma {:induction false} HashStreams(a: string, b: string)
    ensures Hash(a + b) == HashFrom(Hash(a), b)
  {
    if |b| > 0 {
      var b' := b[..|b| - 1];
      HashStreams(a, b');
      assert (a + b)[..|a + b| - 1] == a + b';
    } else {
      assert a + b == a;
    }
  }

  /** "HASH" hashes to 52, the worked example. */
  lemma HashExample()
    ensures Hash("HASH") == 52
  {
    assert "H"[..0] == "";
    assert HashFrom(0, "H") == HashStep(0, 'H') == 200;
    assert "HA"[..1] == "H";
    assert HashFrom(0, "HA") == HashStep(200, 'A') == 153;
    assert "HAS"[..2] == "HA";
    assert HashFrom(0, "HAS") == HashStep(153, 'S') == 172;
    assert "HASH"[..3] == "HAS";
    assert HashFrom(0, "HASH") == HashStep(172, 'H') == 52;
  }

  /** Part 1: the hashes of the steps summed. */
  function Part1(steps: seq<string>): int
  {
    if |steps| == 0 then 0 else Part1(steps[..|steps| - 1]) + Hash(steps[|steps| - 1])
  }

  lemma {:induction false} Part1Range(steps: seq<string>)
    ensures 0 <= Part1(steps) <= 255 * |steps|
  {
    if |steps| > 0 {
      Part1Range(steps[..|steps| - 1]);
      HashRange(steps[|steps| - 1]);
    }
  }

  // ---------------------------------------------------------------------------
  // Boxes
  // ---------------------------------------------------------------------------

  datatype Lens = Lens(name: string, focal: int)

  /** A step, as split at '=' or with the trailing '-' dropped. */
  datatype Step = Put(name: string, value: int) | Take(name: string)

  /** `box.findIndex(([l]) => l === label)`. */
  function FindIndex(box: seq<Lens>, name: string): (i: int)
    ensures -1 <= i < |box|
    ensures i >= 0 ==> box[i].name == name && forall j :: 0 <= j < i ==> box[j].name != name
    ensures i == -1 ==> forall j :: 0 <= j < |box| ==> box[j].name != name
  {
    if |box| == 0 then -1
    else if box[0].name == name then 0
    else
      var i := FindIndex(box[1..], name);
      if i == -1 then -1 else i + 1
  }

  /** No two lenses of a box share a label. */
  predicate UniqueLabels(box: seq<Lens>)
  {
    forall i, j :: 0 <= i < j < |box| ==> box[i].name != box[j].name
  }

  /** "=": replace the value in place, or append a new lens. */
  function PutLens(box: seq<Lens>, name: string, value: int): seq<Lens>
  {
    var i := FindIndex(box, name);
    if i != -1 then box[i := Lens(name, value)] else box + [Lens(name, value)]
  }

  /** "-": remove the lens with the label, if there is one. */
  function TakeLens(box: seq<Lens>, name: string): seq<Lens>
  {
    var i := FindIndex(box, name);
    if i != -1 then box[..i] + box[i + 1..] else box
  }

  /** "=" on a label already present keeps its slot and changes only its
    * focal length; on a new label it appends at the end. */
  lemma PutMeaning(box: seq<Lens>, name: string, value: int)
    ensures var i := FindIndex(box, name);
      i != -1 ==> (|PutLens(box, name, value)| == |box| && PutLens(box, name, value)[i] == Lens(name, value)
        && forall j :: 0 <= j < |box| && j != i ==> PutLens(box, name, value)[j] == box[j])
    ensures FindIndex(box, name) == -1 ==> PutLens(box, name, value) == box + [Lens(name, value)]
  {
  }

  /** "-" on an absent label leaves the box as it was; on a present one it
    * removes exactly that lens, keeping the order of the rest. */
  lemma TakeMeaning(box: seq<Lens>, name: string)
    ensures FindIndex(box, name) == -1 ==> TakeLens(box, name) == box
    ensures var i := FindIndex(box, name);
      i != -1 ==> TakeLens(box, name) == box[..i] + box[i + 1..] && |TakeLens(box, name)| == |box| - 1
  {
  }

  /** Both operations keep a box free of repeated labels, and leave the
    * label present after "=" and absent after "-". */
  lemma OperationsKeepUnique(box: seq<Lens>, name: string, value: int)
    requires UniqueLabels(box)
    ensures UniqueLabels(PutLens(box, name, value))
    ensures UniqueLabels(TakeLens(box, name))
    ensures exists j :: 0 <= j < |PutLens(box, name, value)| && PutLens(box, name, value)[j] == Lens(name, value)
    ensures forall j :: 0 <= j < |TakeLens(box, name)| ==> TakeLens(box, name)[j].name != name
  {
    var i := FindIndex(box, name);
    var put := PutLens(box, name, value);
    if i != -1 {
      assert put[i] == Lens(name, value);
    } else {
      assert put[|box|] == Lens(name, value);
    }
    var taken := TakeLens(box, name);
    if i != -1 {
      forall j | 0 <= j < |taken|
        ensures taken[j].name != name && taken[j] == (if j < i then box[j] else box[j + 1])
      {
        if j < i {
          assert taken[j] == box[j];
        } else {
          assert taken[j] == box[j + 1];
        }
      }
    }
  }

  /** The label a step works on. */
  function LabelOf(step: Step): string
  {
    match step
    case Put(name, _) => name
    case Take(name) => name
  }

  /** The new contents of the box a step works on. */
  function Operate(box: seq<Lens>, step: Step): seq<Lens>
  {
    match step
    case Put(name, value) => PutLens(box, name, value)
    case Take(name) => TakeLens(box, name)
  }

  /** Every lens sits in the box its label hashes to, once per box. */
  ghost predicate BoxesValid(boxes: seq<seq<Lens>>)
  {
    && |boxes| == 256
    && (forall b :: 0 <= b < |boxes| ==> UniqueLabels(boxes[b]))
    && forall b, j :: 0 <= b < |boxes| && 0 <= j < |boxes[b]| ==> Hash(boxes[b][j].name) == b
  }

  /** The `map` of `part2`: 256 boxes, updated in place. */
  class Facility {
    const boxes: array<seq<Lens>>

    ghost predicate Valid()
      reads this, boxes
    {
      BoxesValid(boxes[..])
    }

    /** `times(256).map(() => [])`. */
    constructor ()
      ensures Valid() && forall b :: 0 <= b < 256 ==> boxes[b] == []
      ensures fresh(boxes)
    {
      boxes := new seq<Lens>[256](_ => []);
    }

    /** One step of the loop: only the box the label hashes to changes. */
    method Apply(step: Step)
      requires Valid()
      modifies boxes
      ensures Valid()
      ensures boxes[..] == old(boxes[..])[Hash(LabelOf(step)) := Operate(old(boxes[Hash(LabelOf(step))]), step)]
    {
      var name := LabelOf(step);
      var hashedLabel := ComputeHash(name);
      HashRange(name);
      var box := boxes[hashedLabel];
      var existingIdx := FindIndex(box, name);
      var value := if step.Put? then step.value else 0;
      OperationsKeepUnique(box, name, value);
      var updated: seq<Lens>;
      if step.Put? {
        if existingIdx != -1 {
          updated := box[existingIdx := Lens(name, value)];
        } else {
          updated := box + [Lens(name, value)];
        }
      } else {
        if existingIdx != -1 {
          updated := box[..existingIdx] + box[existingIdx + 1..];
        } else {
          updated := box;
        }
      }
      assert updated == Operate(box, step);
      OperateKeepsHash(box, step, hashedLabel);
      boxes[hashedLabel] := updated;
    }

    /** The focusing power of the facility as it stands. */
    function Power(): int
      reads this, boxes
    {
      TotalPower(boxes[..])
    }
  }

  /** The lenses of a box all hash to its index, before and after a step
    * on a label that hashes there too. */
  lemma OperateKeepsHash(box: seq<Lens>, step: Step, b: int)
    requires Hash(LabelOf(step)) == b
    requires forall j :: 0 <= j < |box| ==> Hash(box[j].name) == b
    ensures forall j :: 0 <= j < |Operate(box, step)| ==> Hash(Operate(box, step)[j].name) == b
  {
    var after := Operate(box, step);
    var i := FindIndex(box, LabelOf(step));
    forall j | 0 <= j < |after|
      ensures Hash(after[j].name) == b
    {
      if step.Take? && i != -1 && j >= i {
        assert after[j] == box[j + 1];
      }
    }
  }

  // ---------------------------------------------------------------------------
  // Focusing power
  // ---------------------------------------------------------------------------

  /** Slot `i` (from 0) contributes `(i + 1) * focal`. */
  function BoxPower(box: seq<Lens>): int
  {
    if |box| == 0 then 0 else BoxPower(box[..|box| - 1]) + |box| * box[|box| - 1].focal
  }

  /** Box `b` (from 0) contributes `(b + 1) * BoxPower`. */
  function TotalPower(boxes: seq<seq<Lens>>): int
  {
    if |boxes| == 0 then 0 else TotalPower(boxes[..|boxes| - 1]) + |boxes| * BoxPower(boxes[|boxes| - 1])
  }

  /** Changing the focal length in slot `i` changes the box's power by
    * `(i + 1)` times the change. */
  lemma {:induction false} BoxPowerUpdate(box: seq<Lens>, i: int, lens: Lens)
    requires 0 <= i < |box|
    ensures BoxPower(box[i := lens]) == BoxPower(box) + (i + 1) * (lens.focal - box[i].focal)
  {
    var after := box[i := lens];
    if i < |box| - 1 {
      assert after[..|after| - 1] == box[..|box| - 1][i := lens];
      BoxPowerUpdate(box[..|box| - 1], i, lens);
    } else {
      assert after[..|after| - 1] == box[..|box| - 1];
    }
  }

  /** Appending a lens adds its focal length times its slot number. */
  lemma AppendPower(box: seq<Lens>, lens: Lens)
    ensures BoxPower(box + [lens]) == BoxPower(box) + (|box| + 1) * lens.focal
  {
    assert (box + [lens])[..|box|] == box;
  }

  /** Changing box `b` changes the total by `(b + 1)` times the change of its
    * power. */
  lemma {:induction false} TotalPowerUpdate(boxes: seq<seq<Lens>>, b: int, box: seq<Lens>)
    requires 0 <= b < |boxes|
    ensures TotalPower(boxes[b := box]) == TotalPower(boxes) + (b + 1) * (BoxPower(box) - BoxPower(boxes[b]))
  {
    var after := boxes[b := box];
    if b < |boxes| - 1 {
      assert after[..|after| - 1] == boxes[..|boxes| - 1][b := box];
      TotalPowerUpdate(boxes[..|boxes| - 1], b, box);
    } else {
      assert after[..|after| - 1] == boxes[..|boxes| - 1];
    }
  }

  /** Empty boxes have no power. */
  lemma {:induction false} EmptyPower(boxes: seq<seq<Lens>>)
    requires forall b :: 0 <= b < |boxes| ==> boxes[b] == []
    ensures TotalPower(boxes) == 0
  {
    if |boxes| > 0 {
      EmptyPower(boxes[..|boxes| - 1]);
    }
  }

  /** The boxes after the steps, from empty boxes. */
  function Arrange(steps: seq<Step>): seq<seq<Lens>>
  {
    if |steps| == 0 then seq(256, _ => [])
    else
      var boxes := Arrange(steps[..|steps| - 1]);
      var step := steps[|steps| - 1];
      var h := Hash(LabelOf(step));
      if 0 <= h < |boxes| then boxes[h := Operate(boxes[h], step)] else boxes
  }

  /** Part 2: run the steps on the facility and take its focusing power. */
  method Part2(steps: seq<Step>) returns (power: int)
    ensures power == TotalPower(Arrange(steps))
    ensures BoxesValid(Arrange(steps))
  {
    var facility := new Facility();
    assert facility.boxes[..] == Arrange(steps[..0]);
    for s := 0 to |steps|
      invariant facility.Valid() && facility.boxes[..] == Arrange(steps[..s])
      modifies facility.boxes
    {
      HashRange(LabelOf(steps[s]));
      assert steps[..s + 1][..s] == steps[..s];
      facility.Apply(steps[s]);
    }
    assert steps[..|steps|] == steps;
    power := facility.Power();
  }
}
